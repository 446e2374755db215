/**
 * `filter_tocs` of filtertocs.py: the passes over the line categories and the
 * blocks put together.
 */
module Tocs {
  import opened TocCategories
  import opened TocBlocks

  /** The categories `categorize_toc_lines` gives. */
  ghost function CategoriesOf(lines: seq<string>, p: Patterns): seq<Categorized>
  {
    seq(|lines|, i requires 0 <= i < |lines| => Categorized(p.tocLine(lines[i]), lines[i]))
  }

  /** The categories after the preceding-lines and in-between passes and
      smoothing with width one. */
  ghost function FinalCategories(lines: seq<string>, p: Patterns): seq<Categorized>
  {
    SmoothCategories(InBetweenPass(PrecedingPass(CategoriesOf(lines, p), p), p), 1)
  }

  /** Blocks `filter_tocs` may rebuild the text with: in order, inside the
      text, each long enough, and each starting and ending on a line that the
      final categories take to be TOC. */
  ghost predicate Plausible(blocks: seq<Block>, cs: seq<Categorized>, minLength: int)
  {
    && Ordered(blocks)
    && forall b :: b in blocks ==>
      && b.end <= |cs|
      && AcceptableBlock(b, minLength)
      && cs[b.start].isToc && cs[b.end - 1].isToc
  }

  /** `blocks` are the maximal runs of TOC lines of `cs` (which are unique,
      `RunsUnique`), combined and then filtered. */
  ghost predicate CombinedRuns(blocks: seq<Block>, cs: seq<Categorized>, minLength: int, maxGap: int)
  {
    exists runs :: MaximalRuns(cs, runs) && StartsIncrease(runs)
      && blocks == FilterBlocks(CombineBlocks(runs, minLength, maxGap), minLength)
  }

  /** Every run of TOC lines long enough by itself lies inside one of the
      blocks. */
  ghost predicate CoversLongRuns(blocks: seq<Block>, cs: seq<Categorized>, minLength: int)
  {
    forall b :: IsRun(cs, b) && AcceptableBlock(b, minLength) ==> exists c :: c in blocks && Within(b, c)
  }

  /** The text `filter_tocs` returns for `blocks`: the lines rebuilt around
      them, which without marking are the lines outside the blocks with a blank
      line per block, and with marking are all the lines with tag lines added. */
  ghost predicate RebuiltWith(text: string, lines: seq<string>, blocks: seq<Block>, mark: bool, tag: string)
    requires Ordered(blocks)
  {
    && text == JoinLines(Rebuilt(lines, blocks, mark, tag))
    && (!mark ==> Rebuilt(lines, blocks, mark, tag) == KeptLines(lines, blocks, |lines|))
    && (mark && NoTagLines(lines, tag) ==> WithoutTags(Rebuilt(lines, blocks, mark, tag), tag) == lines)
  }

  /** `filter_tocs` on the lines of a text: categorise, widen, smooth, group,
      combine, filter and rebuild. A text without a line that looks like a TOC
      line comes back as it was. */
  method FilterTocs(lines: seq<string>, p: Patterns, minLength: int, maxGap: int, mark: bool, tag: string)
    returns (text: string)
    ensures exists blocks ::
      && CombinedRuns(blocks, FinalCategories(lines, p), minLength, maxGap)
      && Plausible(blocks, FinalCategories(lines, p), minLength)
      && CoversLongRuns(blocks, FinalCategories(lines, p), minLength)
      && RebuiltWith(text, lines, blocks, mark, tag)
    ensures (forall i :: 0 <= i < |lines| ==> !p.tocLine(lines[i])) ==> text == JoinLines(lines)
  {
    var cs := Categories(lines, p);
    var blocks := TocBlocksOf(cs, minLength, maxGap);
    text := RebuildText(lines, blocks, mark, tag);
    RebuiltFacts(text, lines, blocks, mark, tag);
    if forall i :: 0 <= i < |lines| ==> !p.tocLine(lines[i]) {
      NoBlocksKeepsLines(lines, mark, tag, |lines|);
      assert StartLines([]) == {} && EndLines([]) == {};
      assert lines[..|lines|] == lines;
    }
  }

  /** The categorising passes of `filter_tocs`. Without a line that looks like
      a TOC line, no line ends up taken as TOC. */
  method Categories(lines: seq<string>, p: Patterns) returns (cs: seq<Categorized>)
    ensures cs == FinalCategories(lines, p)
    ensures (forall i :: 0 <= i < |lines| ==> !p.tocLine(lines[i])) ==> forall i :: 0 <= i < |cs| ==> !cs[i].isToc
  {
    var cs0 := CategorizeTocLines(lines, p);
    assert cs0 == CategoriesOf(lines, p);
    var cs1 := RecategorizePrecedingLines(cs0, p);
    var cs2 := RecategorizeInBetweenLines(cs1, p);
    cs := SmoothCategories(cs2, 1);
    if forall i :: 0 <= i < |lines| ==> !p.tocLine(lines[i]) {
      NoTocNoHeaderBlock(cs0, p);
      NoTocNoChange(cs1, p);
      SmoothNoToc(cs2, 1);
    }
  }

  /** The block passes of `filter_tocs`: group, combine and filter. */
  method TocBlocksOf(cs: seq<Categorized>, minLength: int, maxGap: int) returns (blocks: seq<Block>)
    ensures CombinedRuns(blocks, cs, minLength, maxGap)
    ensures Plausible(blocks, cs, minLength)
    ensures CoversLongRuns(blocks, cs, minLength)
    ensures (forall i :: 0 <= i < |cs| ==> !cs[i].isToc) ==> blocks == []
  {
    var grouped := GroupTocLines(cs);
    CombineCoarsens(grouped, minLength, maxGap);
    var combined := CombineBlocks(grouped, minLength, maxGap);
    blocks := FilterBlocks(combined, minLength);
    FilterKeepsOrder(combined, minLength);
    PlausibleBlocks(cs, grouped, combined, blocks, minLength);
    LongRunsKept(cs, grouped, combined, blocks, minLength);
    if grouped != [] {
      RunStartsOnToc(cs, grouped);
    }
  }

  /** A run long enough by itself is one of the maximal runs, lies inside a
      combined block at least as long, and so survives the filter. */
  lemma LongRunsKept(cs: seq<Categorized>, grouped: seq<Block>, combined: seq<Block>, blocks: seq<Block>, minLength: int)
    requires MaximalRuns(cs, grouped) && Coarser(grouped, combined)
    requires forall b :: b in blocks <==> b in combined && AcceptableBlock(b, minLength)
    ensures CoversLongRuns(blocks, cs, minLength)
  {
    forall b | IsRun(cs, b) && AcceptableBlock(b, minLength)
      ensures exists c :: c in blocks && Within(b, c)
    {
      RunIn(cs, grouped, b);
      var c :| c in combined && Within(b, c);
      assert c in blocks;
    }
  }

  /** The blocks left after combining and filtering the maximal runs are
      plausible. */
  lemma PlausibleBlocks(cs: seq<Categorized>, grouped: seq<Block>, combined: seq<Block>, blocks: seq<Block>, minLength: int)
    requires MaximalRuns(cs, grouped) && Bounded(grouped, combined)
    requires Ordered(blocks) && forall b :: b in blocks <==> b in combined && AcceptableBlock(b, minLength)
    ensures Plausible(blocks, cs, minLength)
  {
    forall b | b in blocks
      ensures b.end <= |cs| && cs[b.start].isToc && cs[b.end - 1].isToc
    {
      var x :| x in grouped && b.start == x.start;
      var y :| y in grouped && b.end == y.end;
      assert IsRun(cs, x) && IsRun(cs, y);
    }
  }

  /** The rebuilt text keeps the lines outside the blocks, or, marked, all of
      them. */
  lemma RebuiltFacts(text: string, lines: seq<string>, blocks: seq<Block>, mark: bool, tag: string)
    requires Ordered(blocks) && text == JoinLines(Rebuilt(lines, blocks, mark, tag))
    ensures RebuiltWith(text, lines, blocks, mark, tag)
  {
    if !mark {
      FilterRebuild(lines, blocks, tag, |lines|);
    } else if NoTagLines(lines, tag) {
      MarkRoundTrip(lines, StartLines(blocks), EndLines(blocks), tag, |lines|);
      assert lines[..|lines|] == lines;
    }
  }

  /** A run of TOC lines starts on a TOC line. */
  lemma RunStartsOnToc(cs: seq<Categorized>, blocks: seq<Block>)
    requires MaximalRuns(cs, blocks) && |blocks| > 0
    ensures blocks[0].start < |cs| && cs[blocks[0].start].isToc
  {
    assert IsRun(cs, blocks[0]);
  }
}
