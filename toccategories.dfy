/**
 * Line categories of filtertocs.py: a line is categorised as belonging to a
 * table of contents (TOC) or not, and three passes then widen the TOC category
 * to headers, in-between lines and isolated gaps.
 */
module TocCategories {
  import opened Text

  /** A line with its category: `isToc` when it is taken to be part of a table
      of contents. */
  datatype Categorized = Categorized(isToc: bool, line: string)

  /** The regular expressions of filtertocs.py that the model keeps abstract:
      `tocLine` for a `TOC_LINE_RE` search (dot leaders and a trailing number),
      `looseNumbered` and `looseDotted` for matches of `LOOSE_TOC_LINE_RE_1`
      and `LOOSE_TOC_LINE_RE_2`, and `header` for a match of one of the
      language-specific `TOC_HEADER_RE` patterns. */
  datatype Patterns = Patterns(
    tocLine: string -> bool,
    looseNumbered: string -> bool,
    looseDotted: string -> bool,
    header: string -> bool)

  /** `BLANK_LINE_RE`, `^\s*$`: nothing but white space. */
  predicate Blank(line: string)
  {
    AllSpaces(line)
  }

  /** `SHORT_LINE_RE`, `^.{,10}$`: at most ten characters other than a line
      feed, optionally followed by one final line feed. */
  predicate Short(line: string)
  {
    var body := if |line| > 0 && line[|line| - 1] == '\n' then line[..|line| - 1] else line;
    |body| <= 10 && '\n' !in body
  }

  /** A line that may stand between TOC lines: one of the four in-between
      patterns of `optional_between_lines_before_toc` matches it. */
  predicate InBetween(p: Patterns, line: string)
  {
    Blank(line) || Short(line) || p.looseNumbered(line) || p.looseDotted(line)
  }

  // ---------------------------------------------------------------------------
  // categorize_toc_lines

  /** `categorize_toc_lines`: one pair per line, in order, with the line
      unchanged and categorised by the TOC-line pattern. */
  method CategorizeTocLines(lines: seq<string>, p: Patterns) returns (categorized: seq<Categorized>)
    ensures |categorized| == |lines|
    ensures forall i :: 0 <= i < |lines| ==>
      categorized[i].line == lines[i] && (categorized[i].isToc <==> p.tocLine(lines[i]))
  {
    categorized := [];
    for i := 0 to |lines|
      invariant |categorized| == i
      invariant forall k :: 0 <= k < i ==>
        categorized[k].line == lines[k] && (categorized[k].isToc <==> p.tocLine(lines[k]))
    {
      if p.tocLine(lines[i]) {
        categorized := categorized + [Categorized(true, lines[i])];
      } else {
        categorized := categorized + [Categorized(false, lines[i])];
      }
    }
  }

  // ---------------------------------------------------------------------------
  // optional_between_lines_before_toc

  /** From `index` on, a TOC line is reached with nothing but in-between lines
      before it. */
  ghost predicate ReachesToc(cs: seq<Categorized>, p: Patterns, index: nat)
  {
    exists j :: index <= j < |cs| && cs[j].isToc && forall k :: index <= k < j ==> InBetween(p, cs[k].line)
  }

  /** `optional_between_lines_before_toc`: scans forward from `index` and
      answers whether a TOC line comes before any line that is neither a TOC
      line nor an in-between line. */
  method LookAhead(cs: seq<Categorized>, p: Patterns, index: nat) returns (found: bool)
    ensures found <==> ReachesToc(cs, p, index)
  {
    var k := index;
    while k < |cs|
      invariant index <= k && (k <= |cs| || k == index)
      invariant forall m :: index <= m < k ==> !cs[m].isToc && InBetween(p, cs[m].line)
      decreases |cs| - k
    {
      if cs[k].isToc {
        return true;
      } else if !InBetween(p, cs[k].line) {
        assert forall j :: index <= j < |cs| && cs[j].isToc ==> k < j;
        return false;
      }
      k := k + 1;
    }
    return false;
  }

  /** A TOC line at `j` with only TOC or in-between lines from `index` up to it
      is reached from `index`. */
  lemma {:induction false} ReachesTocThrough(cs: seq<Categorized>, p: Patterns, index: nat, j: nat)
    requires index <= j < |cs| && cs[j].isToc
    requires forall k :: index <= k < j ==> cs[k].isToc || InBetween(p, cs[k].line)
    ensures ReachesToc(cs, p, index)
    decreases j - index
  {
    if !cs[index].isToc {
      ReachesTocThrough(cs, p, index + 1, j);
      var j' :| index + 1 <= j' < |cs| && cs[j'].isToc && forall k :: index + 1 <= k < j' ==> InBetween(p, cs[k].line);
      assert forall k :: index <= k < j' ==> InBetween(p, cs[k].line);
    }
  }

  // ---------------------------------------------------------------------------
  // recategorize_preceding_lines

  /** The `in_block` flag of `recategorize_preceding_lines` once the first `i`
      lines are processed: a header, or a line inside a header block, followed
      by in-between lines up to a TOC line. */
  ghost function InHeaderBlock(cs: seq<Categorized>, p: Patterns, i: nat): bool
    requires i <= |cs|
  {
    if i == 0 then false
    else (InHeaderBlock(cs, p, i - 1) || p.header(cs[i - 1].line)) && ReachesToc(cs, p, i)
  }

  /** The result of `recategorize_preceding_lines`. */
  ghost function PrecedingPass(cs: seq<Categorized>, p: Patterns): (r: seq<Categorized>)
  {
    seq(|cs|, i requires 0 <= i < |cs| => Categorized(cs[i].isToc || InHeaderBlock(cs, p, i + 1), cs[i].line))
  }

  /** `recategorize_preceding_lines`: header lines, and the lines after them,
      that lead through in-between lines to a TOC line become TOC lines. The
      pass keeps every line and never takes the TOC category away. */
  method RecategorizePrecedingLines(cs: seq<Categorized>, p: Patterns) returns (r: seq<Categorized>)
    ensures r == PrecedingPass(cs, p)
    ensures |r| == |cs| && forall i :: 0 <= i < |cs| ==> r[i].line == cs[i].line && (cs[i].isToc ==> r[i].isToc)
  {
    r := [];
    var inBlock := false;
    for i := 0 to |cs|
      invariant |r| == i && inBlock == InHeaderBlock(cs, p, i)
      invariant forall k :: 0 <= k < i ==> r[k] == PrecedingPass(cs, p)[k]
    {
      var category := cs[i].isToc;
      var ahead := LookAhead(cs, p, i + 1);
      if (inBlock || p.header(cs[i].line)) && ahead {
        inBlock := true;
      } else {
        inBlock := false;
      }
      if inBlock {
        category := true;
      }
      r := r + [Categorized(category, cs[i].line)];
    }
  }

  /** The header line `h` leads, through TOC and in-between lines, to the TOC
      line `j`. */
  ghost predicate HeaderLeads(cs: seq<Categorized>, p: Patterns, h: int, j: int)
  {
    && 0 <= h < j < |cs| && p.header(cs[h].line) && cs[j].isToc
    && forall k :: h < k < j ==> cs[k].isToc || InBetween(p, cs[k].line)
  }

  /** Line `i` is in a header block exactly when some header line at or before
      it starts a stretch of TOC and in-between lines that runs past `i` to a
      TOC line. */
  lemma {:induction false} HeaderBlockIff(cs: seq<Categorized>, p: Patterns, i: nat)
    requires i < |cs|
    ensures InHeaderBlock(cs, p, i + 1) <==> exists h, j :: h <= i < j && HeaderLeads(cs, p, h, j)
  {
    if InHeaderBlock(cs, p, i + 1) {
      HeaderBlockFound(cs, p, i);
    }
    if exists h, j :: h <= i < j && HeaderLeads(cs, p, h, j) {
      var h, j :| h <= i < j && HeaderLeads(cs, p, h, j);
      HeaderBlockFrom(cs, p, h, j, i);
    }
  }

  lemma {:induction false} HeaderBlockFound(cs: seq<Categorized>, p: Patterns, i: nat)
    requires i < |cs| && InHeaderBlock(cs, p, i + 1)
    ensures exists h, j :: h <= i < j && HeaderLeads(cs, p, h, j)
  {
    var j :| i + 1 <= j < |cs| && cs[j].isToc && forall k :: i + 1 <= k < j ==> InBetween(p, cs[k].line);
    if p.header(cs[i].line) {
      assert HeaderLeads(cs, p, i, j);
    } else {
      HeaderBlockFound(cs, p, i - 1);
      var h, j' :| h <= i - 1 < j' && HeaderLeads(cs, p, h, j');
      forall k | h < k < j
        ensures cs[k].isToc || InBetween(p, cs[k].line)
      {
        if k == i && j' == i {
          assert cs[k].isToc;
        }
      }
      assert HeaderLeads(cs, p, h, j);
    }
  }

  lemma {:induction false} HeaderBlockFrom(cs: seq<Categorized>, p: Patterns, h: int, j: int, i: nat)
    requires h <= i < j && HeaderLeads(cs, p, h, j)
    ensures InHeaderBlock(cs, p, i + 1)
    decreases i
  {
    ReachesTocThrough(cs, p, i + 1, j);
    if h < i {
      HeaderBlockFrom(cs, p, h, j, i - 1);
    }
  }

  /** Without a header line the preceding-lines pass changes nothing. */
  lemma NoHeaderNoChange(cs: seq<Categorized>, p: Patterns)
    requires forall i :: 0 <= i < |cs| ==> !p.header(cs[i].line)
    ensures PrecedingPass(cs, p) == cs
  {
    forall i | 0 <= i < |cs|
      ensures PrecedingPass(cs, p)[i] == cs[i]
    {
      HeaderBlockIff(cs, p, i);
    }
  }

  /** Without a TOC line there is no header block either: the preceding-lines
      pass changes nothing. */
  lemma NoTocNoHeaderBlock(cs: seq<Categorized>, p: Patterns)
    requires forall i :: 0 <= i < |cs| ==> !cs[i].isToc
    ensures PrecedingPass(cs, p) == cs
  {
    forall i | 0 <= i < |cs|
      ensures PrecedingPass(cs, p)[i] == cs[i]
    {
      HeaderBlockIff(cs, p, i);
    }
  }

  // ---------------------------------------------------------------------------
  // recategorize_in_between_lines

  /** The `in_block` flag of `recategorize_in_between_lines` once the first `i`
      lines are processed. */
  ghost function InTocBlock(cs: seq<Categorized>, p: Patterns, i: nat): bool
    requires i <= |cs|
  {
    if i == 0 then false
    else cs[i - 1].isToc || (InTocBlock(cs, p, i - 1) && ReachesToc(cs, p, i - 1))
  }

  /** The result of `recategorize_in_between_lines`. */
  ghost function InBetweenPass(cs: seq<Categorized>, p: Patterns): (r: seq<Categorized>)
  {
    seq(|cs|, i requires 0 <= i < |cs| => Categorized(InTocBlock(cs, p, i + 1), cs[i].line))
  }

  /** `recategorize_in_between_lines`: in-between lines that follow a TOC line
      and lead to another become TOC lines. The pass keeps every line and never
      takes the TOC category away. */
  method RecategorizeInBetweenLines(cs: seq<Categorized>, p: Patterns) returns (r: seq<Categorized>)
    ensures r == InBetweenPass(cs, p)
    ensures |r| == |cs| && forall i :: 0 <= i < |cs| ==> r[i].line == cs[i].line && (cs[i].isToc ==> r[i].isToc)
  {
    r := [];
    var inBlock := false;
    for i := 0 to |cs|
      invariant |r| == i && inBlock == InTocBlock(cs, p, i)
      invariant forall k :: 0 <= k < i ==> r[k] == InBetweenPass(cs, p)[k]
    {
      var category := cs[i].isToc;
      if category {
        inBlock := true;
      } else {
        var ahead := false;
        if inBlock {
          ahead := LookAhead(cs, p, i);
        }
        if inBlock && ahead {
          category := true;
        } else {
          inBlock := false;
        }
      }
      r := r + [Categorized(category, cs[i].line)];
    }
  }

  /** The TOC lines `t` and `j` have only in-between lines between them. */
  ghost predicate Bridged(cs: seq<Categorized>, p: Patterns, t: int, j: int)
  {
    && 0 <= t < j < |cs| && cs[t].isToc && cs[j].isToc
    && forall k :: t < k < j ==> InBetween(p, cs[k].line)
  }

  /** After the in-between pass a line is a TOC line exactly when it was one, or
      it lies between two TOC lines with only in-between lines separating them. */
  lemma {:induction false} InBetweenIff(cs: seq<Categorized>, p: Patterns, i: nat)
    requires i < |cs|
    ensures InTocBlock(cs, p, i + 1) <==> cs[i].isToc || exists t, j :: t < i < j && Bridged(cs, p, t, j)
  {
    if InTocBlock(cs, p, i + 1) && !cs[i].isToc {
      InBetweenFound(cs, p, i);
    }
    if !cs[i].isToc && exists t, j :: t < i < j && Bridged(cs, p, t, j) {
      var t, j :| t < i < j && Bridged(cs, p, t, j);
      InBetweenFrom(cs, p, t, j, i);
    }
  }

  lemma {:induction false} InBetweenFound(cs: seq<Categorized>, p: Patterns, i: nat)
    requires i < |cs| && InTocBlock(cs, p, i + 1) && !cs[i].isToc
    ensures exists t, j :: t < i < j && Bridged(cs, p, t, j)
  {
    var j :| i <= j < |cs| && cs[j].isToc && forall k :: i <= k < j ==> InBetween(p, cs[k].line);
    if cs[i - 1].isToc {
      assert Bridged(cs, p, i - 1, j);
    } else {
      InBetweenFound(cs, p, i - 1);
      var t, j' :| t < i - 1 < j' && Bridged(cs, p, t, j');
      assert Bridged(cs, p, t, j);
    }
  }

  lemma {:induction false} InBetweenFrom(cs: seq<Categorized>, p: Patterns, t: int, j: int, i: nat)
    requires t < i < j && Bridged(cs, p, t, j) && !cs[i].isToc
    ensures InTocBlock(cs, p, i + 1)
    decreases i
  {
    ReachesTocThrough(cs, p, i, j);
    if t < i - 1 && !cs[i - 1].isToc {
      InBetweenFrom(cs, p, t, j, i - 1);
    }
  }

  /** Without a TOC line the in-between pass changes nothing. */
  lemma NoTocNoChange(cs: seq<Categorized>, p: Patterns)
    requires forall i :: 0 <= i < |cs| ==> !cs[i].isToc
    ensures InBetweenPass(cs, p) == cs
  {
    forall i | 0 <= i < |cs|
      ensures InBetweenPass(cs, p)[i] == cs[i]
    {
      InBetweenIff(cs, p, i);
    }
  }

  // ---------------------------------------------------------------------------
  // smooth_categories

  /** The number of TOC lines among `cs[lo..hi]`. */
  function CountToc(cs: seq<Categorized>, lo: nat, hi: nat): (n: nat)
    requires lo <= hi <= |cs|
    ensures n <= hi - lo
    decreases hi - lo
  {
    if lo == hi then 0 else CountToc(cs, lo, hi - 1) + (if cs[hi - 1].isToc then 1 else 0)
  }

  /** `max(0, i - width)`, the first line of the window around line `i`. */
  function WindowStart(i: nat, width: nat): nat
  {
    if i >= width then i - width else 0
  }

  /** `min(len(categorized), i + width + 1)`, one past the last line of the
      window around line `i`. */
  function WindowEnd(n: nat, i: nat, width: nat): nat
  {
    if i + width + 1 <= n then i + width + 1 else n
  }

  /** More than half the lines of the window around line `i` are TOC lines.
      The window holds line `i`, so it is never empty and the ratio `> 0.5` of
      the source is `2 * count > size` exactly. */
  predicate Majority(cs: seq<Categorized>, i: nat, width: nat)
    requires i < |cs|
  {
    var lo, hi := WindowStart(i, width), WindowEnd(|cs|, i, width);
    2 * CountToc(cs, lo, hi) > hi - lo
  }

  /** `smooth_categories`: a line becomes a TOC line when most of its window of
      `width` lines on each side is. */
  function SmoothCategories(cs: seq<Categorized>, width: nat): (r: seq<Categorized>)
    ensures |r| == |cs|
    ensures forall i :: 0 <= i < |cs| ==> r[i].line == cs[i].line && (cs[i].isToc ==> r[i].isToc)
  {
    seq(|cs|, i requires 0 <= i < |cs| => Categorized(cs[i].isToc || Majority(cs, i, width), cs[i].line))
  }

  /** The count is the size of the set of TOC positions in the window. */
  lemma {:induction false} CountTocIsSize(cs: seq<Categorized>, lo: nat, hi: nat)
    requires lo <= hi <= |cs|
    ensures CountToc(cs, lo, hi) == |set k | lo <= k < hi && cs[k].isToc|
    decreases hi - lo
  {
    if lo < hi {
      CountTocIsSize(cs, lo, hi - 1);
      var before := set k | lo <= k < hi - 1 && cs[k].isToc;
      if cs[hi - 1].isToc {
        assert (set k | lo <= k < hi && cs[k].isToc) == before + {hi - 1};
      } else {
        assert (set k | lo <= k < hi && cs[k].isToc) == before;
      }
    }
  }

  /** Smoothing turns a line into a TOC line only when more than half of the
      positions in its window hold TOC lines. */
  lemma SmoothNeedsMajority(cs: seq<Categorized>, width: nat, i: nat)
    requires i < |cs| && SmoothCategories(cs, width)[i].isToc && !cs[i].isToc
    ensures var lo, hi := WindowStart(i, width), WindowEnd(|cs|, i, width);
      2 * |set k | lo <= k < hi && cs[k].isToc| > hi - lo
  {
    CountTocIsSize(cs, WindowStart(i, width), WindowEnd(|cs|, i, width));
  }

  /** With the default width of one, smoothing fills exactly the single non-TOC
      lines that have a TOC line on each side. */
  lemma SmoothWidthOne(cs: seq<Categorized>, i: nat)
    requires i < |cs|
    ensures SmoothCategories(cs, 1)[i].isToc <==>
      cs[i].isToc || (0 < i < |cs| - 1 && cs[i - 1].isToc && cs[i + 1].isToc)
  {
    var lo, hi := WindowStart(i, 1), WindowEnd(|cs|, i, 1);
    if 0 < i < |cs| - 1 {
      assert CountToc(cs, i - 1, i) == (if cs[i - 1].isToc then 1 else 0);
      assert CountToc(cs, i - 1, i + 1) == CountToc(cs, i - 1, i) + (if cs[i].isToc then 1 else 0);
      assert CountToc(cs, lo, hi) == CountToc(cs, i - 1, i + 1) + (if cs[i + 1].isToc then 1 else 0);
    } else if i == 0 {
      assert CountToc(cs, lo, hi) <= 1 + (if cs[0].isToc then 1 else 0);
    } else {
      assert CountToc(cs, lo, hi) <= 1 + (if cs[i].isToc then 1 else 0);
    }
  }

  /** Without a TOC line smoothing changes nothing. */
  lemma {:induction false} CountNoToc(cs: seq<Categorized>, lo: nat, hi: nat)
    requires lo <= hi <= |cs| && forall k :: lo <= k < hi ==> !cs[k].isToc
    ensures CountToc(cs, lo, hi) == 0
    decreases hi - lo
  {
    if lo < hi {
      CountNoToc(cs, lo, hi - 1);
    }
  }

  lemma SmoothNoToc(cs: seq<Categorized>, width: nat)
    requires forall i :: 0 <= i < |cs| ==> !cs[i].isToc
    ensures SmoothCategories(cs, width) == cs
  {
    forall i | 0 <= i < |cs|
      ensures !Majority(cs, i, width)
    {
      CountNoToc(cs, WindowStart(i, width), WindowEnd(|cs|, i, width));
    }
  }
}
