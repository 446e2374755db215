/**
 * TOC blocks of filtertocs.py: runs of TOC lines grouped into blocks, blocks
 * merged across short gaps, short blocks dropped, and the text rebuilt with
 * the remaining blocks removed or marked.
 */
module TocBlocks {
  import opened Wrappers
  import opened Text
  import opened TocCategories

  /** The lines `[start, end)` of a table of contents. */
  datatype Block = Block(start: int, end: int)

  /** Non-empty blocks of non-negative lines in order, each ending before the
      next one starts. */
  predicate Ordered(blocks: seq<Block>)
  {
    && (forall k :: 0 <= k < |blocks| ==> 0 <= blocks[k].start < blocks[k].end)
    && (forall j, k :: 0 <= j < k < |blocks| ==> blocks[j].end < blocks[k].start)
  }

  /** Line `m` lies in one of the blocks. */
  ghost predicate Covered(blocks: seq<Block>, m: int)
  {
    exists k :: 0 <= k < |blocks| && blocks[k].start <= m < blocks[k].end
  }

  // ---------------------------------------------------------------------------
  // group_toc_lines

  /** `b` is a maximal run of TOC lines of `cs`. */
  predicate IsRun(cs: seq<Categorized>, b: Block)
  {
    && 0 <= b.start < b.end <= |cs|
    && (forall m :: b.start <= m < b.end ==> cs[m].isToc)
    && (b.start == 0 || !cs[b.start - 1].isToc)
    && (b.end == |cs| || !cs[b.end].isToc)
  }

  /** `blocks` are exactly the maximal runs of TOC lines of `cs`, in order. */
  ghost predicate MaximalRuns(cs: seq<Categorized>, blocks: seq<Block>)
  {
    && Ordered(blocks)
    && (forall k :: 0 <= k < |blocks| ==> IsRun(cs, blocks[k]))
    && (forall m :: 0 <= m < |cs| && cs[m].isToc ==> Covered(blocks, m))
  }

  /** Two maximal runs that share a line are the same run. */
  lemma RunsMeet(cs: seq<Categorized>, a: Block, b: Block, m: int)
    requires IsRun(cs, a) && IsRun(cs, b) && a.start <= m < a.end && b.start <= m < b.end
    ensures a == b
  {
  }

  /** There is only one way to list the maximal runs of TOC lines in order. */
  lemma RunsUnique(cs: seq<Categorized>, x: seq<Block>, y: seq<Block>)
    requires MaximalRuns(cs, x) && MaximalRuns(cs, y)
    ensures x == y
  {
    forall b | b in x
      ensures b in y
    {
      RunIn(cs, y, b);
    }
    forall b | b in y
      ensures b in x
    {
      RunIn(cs, x, b);
    }
    SameOrdered(x, y);
  }

  /** A maximal run is one of the maximal runs listed. */
  lemma RunIn(cs: seq<Categorized>, runs: seq<Block>, b: Block)
    requires MaximalRuns(cs, runs) && IsRun(cs, b)
    ensures b in runs
  {
    assert cs[b.start].isToc;
    var k :| 0 <= k < |runs| && runs[k].start <= b.start < runs[k].end;
    RunsMeet(cs, b, runs[k], b.start);
  }

  /** Ordered blocks are determined by which blocks they hold. */
  lemma {:induction false} SameOrdered(x: seq<Block>, y: seq<Block>)
    requires Ordered(x) && Ordered(y) && forall b :: b in x <==> b in y
    ensures x == y
    decreases |x|
  {
    BothEmpty(x, y);
    if x != [] {
      assert x[0] in y;
      FirstSame(x, y);
      forall b
        ensures b in x[1..] <==> b in y[1..]
      {
        if b in x[1..] {
          TailMember(x, y, b);
        }
        if b in y[1..] {
          TailMember(y, x, b);
        }
      }
      OrderedTail(x);
      OrderedTail(y);
      SameOrdered(x[1..], y[1..]);
      assert x == [x[0]] + x[1..] && y == [y[0]] + y[1..];
    }
  }

  lemma BothEmpty(x: seq<Block>, y: seq<Block>)
    requires forall b :: b in x <==> b in y
    ensures x == [] <==> y == []
  {
    if x != [] {
      assert x[0] in x;
    }
    if y != [] {
      assert y[0] in y;
    }
  }

  /** Ordered blocks holding the same blocks start with the same one. */
  lemma FirstSame(x: seq<Block>, y: seq<Block>)
    requires Ordered(x) && Ordered(y) && |x| > 0 && |y| > 0 && forall b :: b in x <==> b in y
    ensures x[0] == y[0]
  {
    assert x[0] in y && y[0] in x;
    var i :| 0 <= i < |x| && x[i] == y[0];
    var j :| 0 <= j < |y| && y[j] == x[0];
  }

  lemma OrderedTail(x: seq<Block>)
    requires Ordered(x) && |x| > 0
    ensures Ordered(x[1..])
  {
    forall j, k | 0 <= j < k < |x| - 1
      ensures x[1..][j].end < x[1..][k].start
    {
      assert x[1..][j] == x[j + 1] && x[1..][k] == x[k + 1];
    }
  }

  /** A block after the first of `x` is, in `y` with the same first block and
      the same blocks, after the first too. */
  lemma TailMember(x: seq<Block>, y: seq<Block>, b: Block)
    requires Ordered(x) && Ordered(y) && |x| > 0 && |y| > 0 && x[0] == y[0]
    requires (forall c :: c in x <==> c in y) && b in x[1..]
    ensures b in y[1..]
  {
    var k :| 1 <= k < |x| && x[k] == b;
    assert x[0].end < b.start;
    assert b in y;
    var l :| 0 <= l < |y| && y[l] == b;
    assert l != 0;
    assert y[1..][l - 1] == b;
  }

  /** `group_toc_lines` as written, from line `i` on with a block open since
      `open`: a run that reaches the last line is closed at the index of that
      line, not one past it, so the block leaves that line out. */
  function GroupAsWritten(cs: seq<Categorized>, i: nat, open: Option<nat>): (r: seq<Block>)
    requires i <= |cs|
    requires open.Some? ==> open.value < i
    ensures forall b :: b in r ==> b.end < |cs|
    decreases |cs| - i
  {
    if i == |cs| then (if open.Some? then [Block(open.value, |cs| - 1)] else [])
    else if cs[i].isToc then GroupAsWritten(cs, i + 1, if open.None? then Some(i) else open)
    else (if open.Some? then [Block(open.value, i)] else []) + GroupAsWritten(cs, i + 1, None)
  }

  /** Five TOC lines that end the text: as written they give the block
      `(0, 4)`, which leaves out the last TOC line and is one line short of the
      default minimum TOC length of five, so the length filter drops it. */
  lemma LastRunLosesLine()
    ensures var cs := seq(5, i => Categorized(true, "Luku . . . . . 1"));
      && GroupAsWritten(cs, 0, None) == [Block(0, 4)]
      && !MaximalRuns(cs, [Block(0, 4)])
      && FilterBlocks([Block(0, 4)], 5) == []
  {
    var cs := seq(5, i => Categorized(true, "Luku . . . . . 1"));
    assert GroupAsWritten(cs, 5, Some(0)) == [Block(0, 4)];
    assert GroupAsWritten(cs, 4, Some(0)) == [Block(0, 4)];
    assert GroupAsWritten(cs, 3, Some(0)) == [Block(0, 4)];
    assert GroupAsWritten(cs, 2, Some(0)) == [Block(0, 4)];
    assert GroupAsWritten(cs, 1, Some(0)) == [Block(0, 4)];
    assert !Covered([Block(0, 4)], 4);
  }

  /** The same five lines form one maximal run, `(0, 5)`, which the length
      filter keeps. */
  lemma LastRunOfFive(blocks: seq<Block>)
    requires MaximalRuns(seq(5, i => Categorized(true, "Luku . . . . . 1")), blocks)
    ensures blocks == [Block(0, 5)] && FilterBlocks(blocks, 5) == blocks
  {
    var cs := seq(5, i => Categorized(true, "Luku . . . . . 1"));
    assert Covered(blocks, 0);
    forall j | 0 <= j < |blocks|
      ensures blocks[j] == Block(0, 5)
    {
      OnlyRunOfFive(blocks[j]);
    }
    assert |blocks| > 1 ==> blocks[0].end < blocks[1].start;
  }

  lemma OnlyRunOfFive(b: Block)
    requires IsRun(seq(5, i => Categorized(true, "Luku . . . . . 1")), b)
    ensures b == Block(0, 5)
  {
  }

  /** `group_toc_lines` with the last run closed one past the last line: the
      blocks are exactly the maximal runs of TOC lines. */
  method GroupTocLines(cs: seq<Categorized>) returns (blocks: seq<Block>)
    ensures MaximalRuns(cs, blocks)
  {
    blocks := [];
    var open: Option<nat> := None;
    for i := 0 to |cs|
      invariant Ordered(blocks)
      invariant forall k :: 0 <= k < |blocks| ==> IsRun(cs, blocks[k]) && blocks[k].end < i
      invariant open.Some? ==> OpenRun(cs, blocks, open.value, i)
      invariant open.None? ==> i == 0 || !cs[i - 1].isToc
      invariant forall m :: 0 <= m < i && cs[m].isToc ==> Covered(blocks, m) || (open.Some? && open.value <= m)
    {
      if cs[i].isToc {
        if open.None? {
          open := Some(i);
        }
      } else {
        if open.Some? {
          blocks := CloseRun(cs, blocks, open.value, i);
        }
        open := None;
      }
    }
    if open.Some? {
      blocks := CloseRun(cs, blocks, open.value, |cs|);
    }
  }

  /** A run of TOC lines open from `s` up to line `i`, after every block. */
  ghost predicate OpenRun(cs: seq<Categorized>, blocks: seq<Block>, s: nat, i: nat)
  {
    && s < i <= |cs|
    && (forall m :: s <= m < i ==> cs[m].isToc)
    && (s == 0 || !cs[s - 1].isToc)
    && (forall k :: 0 <= k < |blocks| ==> blocks[k].end < s)
  }

  /** Closing the open run at `e` adds a maximal run after the others. */
  method CloseRun(cs: seq<Categorized>, blocks: seq<Block>, s: nat, e: nat) returns (r: seq<Block>)
    requires Ordered(blocks) && OpenRun(cs, blocks, s, e)
    requires forall k :: 0 <= k < |blocks| ==> IsRun(cs, blocks[k])
    requires e == |cs| || !cs[e].isToc
    ensures r == blocks + [Block(s, e)]
    ensures Ordered(r) && forall k :: 0 <= k < |r| ==> IsRun(cs, r[k]) && r[k].end <= e
    ensures forall m :: Covered(blocks, m) || s <= m < e ==> Covered(r, m)
  {
    r := blocks + [Block(s, e)];
    forall m | Covered(blocks, m) || s <= m < e
      ensures Covered(r, m)
    {
      if s <= m < e {
        assert r[|blocks|].start <= m < r[|blocks|].end;
      } else {
        var k :| 0 <= k < |blocks| && blocks[k].start <= m < blocks[k].end;
        assert r[k] == blocks[k];
      }
    }
  }

  // ---------------------------------------------------------------------------
  // combine_blocks

  /** `acceptable_block`: at least `minLength` lines long. */
  predicate AcceptableBlock(b: Block, minLength: int)
  {
    b.end - b.start >= minLength
  }

  /** `acceptable_gap`: the next block starts at most `maxGap` lines after the
      end of the first. */
  predicate AcceptableGap(b1: Block, b2: Block, maxGap: int)
  {
    b2.start - b1.end <= maxGap
  }

  /** `can_combine`: close enough, and at least one of the two long enough. */
  predicate CanCombine(b1: Block, b2: Block, minLength: int, maxGap: int)
  {
    AcceptableGap(b1, b2, maxGap) && (AcceptableBlock(b1, minLength) || AcceptableBlock(b2, minLength))
  }

  /** What `acceptable_gap` asserts of every adjacent pair it is given. */
  predicate StartsIncrease(blocks: seq<Block>)
  {
    forall k :: 0 < k < |blocks| ==> blocks[k - 1].start < blocks[k].start
  }

  /** The first `i` from `from` on at which `blocks[i]` and `blocks[i + 1]`
      can be combined, as the `for` loop of `combine_blocks` finds it. */
  function FirstCombinable(blocks: seq<Block>, minLength: int, maxGap: int, from: nat): (r: Option<nat>)
    requires from <= |blocks|
    ensures r.Some? ==>
      && from <= r.value < |blocks| - 1
      && CanCombine(blocks[r.value], blocks[r.value + 1], minLength, maxGap)
      && forall k :: from <= k < r.value ==> !CanCombine(blocks[k], blocks[k + 1], minLength, maxGap)
    ensures r.None? ==> forall k :: from <= k < |blocks| - 1 ==> !CanCombine(blocks[k], blocks[k + 1], minLength, maxGap)
    decreases |blocks| - from
  {
    if from + 1 >= |blocks| then None
    else if CanCombine(blocks[from], blocks[from + 1], minLength, maxGap) then Some(from)
    else FirstCombinable(blocks, minLength, maxGap, from + 1)
  }

  /** `blocks[:i] + [(blocks[i][0], blocks[i+1][1])] + blocks[i+2:]`. */
  function Merge(blocks: seq<Block>, i: nat): (r: seq<Block>)
    requires i + 1 < |blocks|
    ensures |r| == |blocks| - 1
    ensures StartsIncrease(blocks) ==> StartsIncrease(r)
  {
    blocks[..i] + [Block(blocks[i].start, blocks[i + 1].end)] + blocks[i + 2..]
  }

  /** `combine_blocks`: merge the first combinable adjacent pair and start
      over, until no pair can be combined. Each round has one block fewer. */
  function CombineBlocks(blocks: seq<Block>, minLength: int, maxGap: int): (r: seq<Block>)
    requires StartsIncrease(blocks)
    ensures |r| <= |blocks| && StartsIncrease(r)
    ensures forall k :: 0 < k < |r| ==> !CanCombine(r[k - 1], r[k], minLength, maxGap)
    decreases |blocks|
  {
    match FirstCombinable(blocks, minLength, maxGap, 0)
    case None => blocks
    case Some(i) => CombineBlocks(Merge(blocks, i), minLength, maxGap)
  }

  /** `b` lies inside `c`. */
  predicate Within(b: Block, c: Block)
  {
    c.start <= b.start && b.end <= c.end
  }

  /** Every block of `blocks` lies inside some block of `r`. */
  ghost predicate Coarser(blocks: seq<Block>, r: seq<Block>)
  {
    forall b :: b in blocks ==> exists c :: c in r && Within(b, c)
  }

  /** Every block of `r` starts where a block of `blocks` starts and ends where
      one ends. */
  ghost predicate Bounded(blocks: seq<Block>, r: seq<Block>)
  {
    && (forall c :: c in r ==> exists b :: b in blocks && c.start == b.start)
    && (forall c :: c in r ==> exists b :: b in blocks && c.end == b.end)
  }

  lemma CoarserTrans(a: seq<Block>, b: seq<Block>, c: seq<Block>)
    requires Coarser(a, b) && Coarser(b, c)
    ensures Coarser(a, c)
  {
    forall x | x in a
      ensures exists z :: z in c && Within(x, z)
    {
      var y :| y in b && Within(x, y);
      var z :| z in c && Within(y, z);
      assert Within(x, z);
    }
  }

  lemma BoundedTrans(a: seq<Block>, b: seq<Block>, c: seq<Block>)
    requires Bounded(a, b) && Bounded(b, c)
    ensures Bounded(a, c)
  {
    forall z | z in c
      ensures exists x :: x in a && z.start == x.start
    {
      var y :| y in b && z.start == y.start;
      var x :| x in a && y.start == x.start;
    }
    forall z | z in c
      ensures exists x :: x in a && z.end == x.end
    {
      var y :| y in b && z.end == y.end;
      var x :| x in a && y.end == x.end;
    }
  }

  /** The blocks of a merge, by position. */
  lemma MergeAt(blocks: seq<Block>, i: nat, k: nat)
    requires i + 1 < |blocks| && k < |blocks| - 1
    ensures Merge(blocks, i)[k] ==
      if k < i then blocks[k] else if k == i then Block(blocks[i].start, blocks[i + 1].end) else blocks[k + 1]
  {
  }

  /** Merging covers each old block by a new one. */
  lemma MergeCoarser(blocks: seq<Block>, i: nat)
    requires i + 1 < |blocks| && Ordered(blocks)
    ensures Coarser(blocks, Merge(blocks, i))
  {
    var r := Merge(blocks, i);
    forall b | b in blocks
      ensures exists c :: c in r && Within(b, c)
    {
      var k :| 0 <= k < |blocks| && blocks[k] == b;
      if k < i {
        MergeAt(blocks, i, k);
        assert r[k] in r && Within(b, r[k]);
      } else if k <= i + 1 {
        MergeAt(blocks, i, i);
        assert r[i] in r && Within(b, r[i]);
      } else {
        MergeAt(blocks, i, k - 1);
        assert r[k - 1] in r && Within(b, r[k - 1]);
      }
    }
  }

  /** Each merged block starts where an old one starts and ends where an old
      one ends. */
  lemma MergeBounded(blocks: seq<Block>, i: nat)
    requires i + 1 < |blocks|
    ensures Bounded(blocks, Merge(blocks, i))
  {
    var r := Merge(blocks, i);
    forall c | c in r
      ensures (exists b :: b in blocks && c.start == b.start) && (exists b :: b in blocks && c.end == b.end)
    {
      var k :| 0 <= k < |r| && r[k] == c;
      MergeAt(blocks, i, k);
      if k == i {
        assert blocks[i] in blocks && blocks[i + 1] in blocks;
      } else if k < i {
        assert blocks[k] in blocks;
      } else {
        assert blocks[k + 1] in blocks;
      }
    }
  }

  /** Merging keeps ordered blocks ordered. */
  lemma MergeOrdered(blocks: seq<Block>, i: nat)
    requires i + 1 < |blocks| && Ordered(blocks)
    ensures Ordered(Merge(blocks, i))
  {
    var r := Merge(blocks, i);
    var merged := Block(blocks[i].start, blocks[i + 1].end);
    forall k | 0 <= k < |r|
      ensures r[k] == (if k < i then blocks[k] else if k == i then merged else blocks[k + 1])
    {
    }
    forall k | 0 <= k < |r|
      ensures 0 <= r[k].start < r[k].end
    {
      if k == i {
        assert blocks[i].start < blocks[i].end < blocks[i + 1].start < blocks[i + 1].end;
      }
    }
    forall j, k | 0 <= j < k < |r|
      ensures r[j].end < r[k].start
    {
      var je := if j < i then j else j + 1;
      var ks := if k <= i then k else k + 1;
      assert r[j].end == blocks[je].end && r[k].start == blocks[ks].start && je < ks;
    }
  }

  /** Combining keeps ordered blocks ordered, covers each block by a combined
      one, and each combined block starts where a block starts and ends where a
      block ends. */
  lemma {:induction false} CombineCoarsens(blocks: seq<Block>, minLength: int, maxGap: int)
    requires Ordered(blocks)
    ensures StartsIncrease(blocks)
    ensures Ordered(CombineBlocks(blocks, minLength, maxGap))
    ensures Coarser(blocks, CombineBlocks(blocks, minLength, maxGap))
    ensures Bounded(blocks, CombineBlocks(blocks, minLength, maxGap))
    decreases |blocks|
  {
    assert StartsIncrease(blocks) by {
      forall k | 0 < k < |blocks|
        ensures blocks[k - 1].start < blocks[k].start
      {
        assert blocks[k - 1].start < blocks[k - 1].end < blocks[k].start;
      }
    }
    match FirstCombinable(blocks, minLength, maxGap, 0)
    case None =>
      assert forall b :: b in blocks ==> Within(b, b);
    case Some(i) =>
      var next := Merge(blocks, i);
      MergeCoarser(blocks, i);
      MergeBounded(blocks, i);
      MergeOrdered(blocks, i);
      CombineCoarsens(next, minLength, maxGap);
      var r := CombineBlocks(next, minLength, maxGap);
      assert r == CombineBlocks(blocks, minLength, maxGap);
      CoarserTrans(blocks, next, r);
      BoundedTrans(blocks, next, r);
  }

  // ---------------------------------------------------------------------------
  // filter_blocks

  /** `filter_blocks`: the blocks at least `minLength` lines long, in order. */
  function FilterBlocks(blocks: seq<Block>, minLength: int): (r: seq<Block>)
    ensures |r| <= |blocks|
    ensures forall b :: b in r <==> b in blocks && AcceptableBlock(b, minLength)
  {
    if blocks == [] then []
    else
      var last := blocks[|blocks| - 1];
      FilterBlocks(blocks[..|blocks| - 1], minLength) + (if AcceptableBlock(last, minLength) then [last] else [])
  }

  /** Filtering keeps ordered blocks in their order. */
  lemma {:induction false} FilterKeepsOrder(blocks: seq<Block>, minLength: int)
    requires Ordered(blocks)
    ensures Ordered(FilterBlocks(blocks, minLength))
  {
    if blocks != [] {
      var init := blocks[..|blocks| - 1];
      var last := blocks[|blocks| - 1];
      assert Ordered(init);
      FilterKeepsOrder(init, minLength);
      var front := FilterBlocks(init, minLength);
      forall j | 0 <= j < |front|
        ensures front[j].end < last.start
      {
        assert front[j] in init;
      }
    }
  }

  // ---------------------------------------------------------------------------
  // rebuild_text

  /** The output lines and the `in_toc` flag of `rebuild_text`. */
  datatype Rebuilding = Rebuilding(out: seq<string>, inToc: bool)

  /** `toc_start_lines`. */
  function StartLines(blocks: seq<Block>): set<int>
  {
    set b | b in blocks :: b.start
  }

  /** `toc_end_lines`: the last line of each block. */
  function EndLines(blocks: seq<Block>): set<int>
  {
    set b | b in blocks :: b.end - 1
  }

  /** The state of `rebuild_text` once the first `n` lines are processed: a
      block start line gets an opening tag (or, without marking, a blank line
      in place of the block), lines inside a block are kept only when marking,
      and a block end line gets a closing tag when marking. */
  function RebuildUpTo(lines: seq<string>, starts: set<int>, ends: set<int>, mark: bool, tag: string, n: nat): Rebuilding
    requires n <= |lines|
  {
    if n == 0 then Rebuilding([], false)
    else
      var before := RebuildUpTo(lines, starts, ends, mark, tag, n - 1);
      var i := n - 1;
      var opening := if i in starts then [if mark then OpenTag(tag) else ""] else [];
      var inToc := i in starts || before.inToc;
      var kept := if mark || !inToc then [lines[i]] else [];
      var closing := if i in ends && mark then [CloseTag(tag)] else [];
      Rebuilding(before.out + opening + kept + closing, if i in ends then false else inToc)
  }

  /** The output lines of `rebuild_text` for `blocks`. */
  function Rebuilt(lines: seq<string>, blocks: seq<Block>, mark: bool, tag: string): seq<string>
  {
    RebuildUpTo(lines, StartLines(blocks), EndLines(blocks), mark, tag, |lines|).out
  }

  /** `''.join([line + '\n' for line in rebuilt])`. */
  function JoinLines(ls: seq<string>): string
  {
    if ls == [] then "" else JoinLines(ls[..|ls| - 1]) + ls[|ls| - 1] + "\n"
  }

  /** `rebuild_text`. */
  method RebuildText(lines: seq<string>, blocks: seq<Block>, mark: bool, tag: string) returns (text: string)
    ensures text == JoinLines(Rebuilt(lines, blocks, mark, tag))
  {
    var starts := StartLines(blocks);
    var ends := EndLines(blocks);
    var inToc := false;
    var rebuilt: seq<string> := [];
    for i := 0 to |lines|
      invariant RebuildUpTo(lines, starts, ends, mark, tag, i) == Rebuilding(rebuilt, inToc)
    {
      if i in starts {
        if mark {
          rebuilt := rebuilt + [OpenTag(tag)];
        } else {
          rebuilt := rebuilt + [""];
        }
        inToc := true;
      }
      if mark || !inToc {
        rebuilt := rebuilt + [lines[i]];
      }
      if i in ends {
        if mark {
          rebuilt := rebuilt + [CloseTag(tag)];
        }
        inToc := false;
      }
    }
    text := JoinLines(rebuilt);
  }

  /** `ls` without the lines that are an opening or closing `tag`. */
  function WithoutTags(ls: seq<string>, tag: string): seq<string>
  {
    if ls == [] then []
    else
      var last := ls[|ls| - 1];
      WithoutTags(ls[..|ls| - 1], tag) + (if last == OpenTag(tag) || last == CloseTag(tag) then [] else [last])
  }

  lemma {:induction false} WithoutTagsAppend(a: seq<string>, b: seq<string>, tag: string)
    ensures WithoutTags(a + b, tag) == WithoutTags(a, tag) + WithoutTags(b, tag)
    decreases |b|
  {
    if b == [] {
      assert a + b == a;
    } else {
      var b' := b[..|b| - 1];
      assert (a + b)[..|a + b| - 1] == a + b';
      WithoutTagsAppend(a, b', tag);
    }
  }

  lemma TakeOneMore<T>(s: seq<T>, n: nat)
    requires 0 < n <= |s|
    ensures s[..n] == s[..n - 1] + [s[n - 1]]
  {
  }

  /** What marking prints for line `i`: the line between its optional tags. */
  function MarkedPiece(lines: seq<string>, starts: set<int>, ends: set<int>, tag: string, i: nat): seq<string>
    requires i < |lines|
  {
    (if i in starts then [OpenTag(tag)] else []) + [lines[i]] + (if i in ends then [CloseTag(tag)] else [])
  }

  lemma MarkStep(lines: seq<string>, starts: set<int>, ends: set<int>, tag: string, n: nat)
    requires 0 < n <= |lines|
    ensures RebuildUpTo(lines, starts, ends, true, tag, n).out
      == RebuildUpTo(lines, starts, ends, true, tag, n - 1).out + MarkedPiece(lines, starts, ends, tag, n - 1)
  {
  }

  /** Taking the tag lines out of one marked line leaves that line. */
  lemma PieceWithoutTags(lines: seq<string>, starts: set<int>, ends: set<int>, tag: string, i: nat)
    requires i < |lines| && lines[i] != OpenTag(tag) && lines[i] != CloseTag(tag)
    ensures WithoutTags(MarkedPiece(lines, starts, ends, tag, i), tag) == [lines[i]]
  {
    var opening := if i in starts then [OpenTag(tag)] else [];
    var closing := if i in ends then [CloseTag(tag)] else [];
    WithoutTagsAppend(opening + [lines[i]], closing, tag);
    WithoutTagsAppend(opening, [lines[i]], tag);
    assert WithoutTags(opening, tag) == [] by {
      if i in starts {
        assert WithoutTags(opening, tag) == WithoutTags([], tag) + [];
      }
    }
    assert WithoutTags(closing, tag) == [] by {
      if i in ends {
        assert WithoutTags(closing, tag) == WithoutTags([], tag) + [];
      }
    }
    assert WithoutTags([lines[i]], tag) == WithoutTags([], tag) + [lines[i]];
  }

  /** No line of `lines` is itself an opening or closing `tag`. */
  predicate NoTagLines(lines: seq<string>, tag: string)
  {
    forall i :: 0 <= i < |lines| ==> lines[i] != OpenTag(tag) && lines[i] != CloseTag(tag)
  }

  lemma StripAppend(before: seq<string>, piece: seq<string>, prefix: seq<string>, line: string, tag: string)
    requires WithoutTags(before, tag) == prefix && WithoutTags(piece, tag) == [line]
    ensures WithoutTags(before + piece, tag) == prefix + [line]
  {
    WithoutTagsAppend(before, piece, tag);
  }

  /** Marking only adds tag lines: taking them out again gives back the text,
      when no line of the text is itself a tag line. */
  lemma {:induction false} MarkRoundTrip(lines: seq<string>, starts: set<int>, ends: set<int>, tag: string, n: nat)
    requires n <= |lines| && NoTagLines(lines, tag)
    ensures WithoutTags(RebuildUpTo(lines, starts, ends, true, tag, n).out, tag) == lines[..n]
  {
    if n > 0 {
      MarkRoundTrip(lines, starts, ends, tag, n - 1);
      MarkStep(lines, starts, ends, tag, n);
      PieceWithoutTags(lines, starts, ends, tag, n - 1);
      StripAppend(RebuildUpTo(lines, starts, ends, true, tag, n - 1).out, MarkedPiece(lines, starts, ends, tag, n - 1),
                  lines[..n - 1], lines[n - 1], tag);
      TakeOneMore(lines, n);
    }
  }

  /** Each line is in at most one of ordered blocks. */
  lemma OrderedDisjoint(blocks: seq<Block>, j: nat, k: nat, m: int)
    requires Ordered(blocks) && j < |blocks| && k < |blocks|
    requires blocks[j].start <= m < blocks[j].end && blocks[k].start <= m < blocks[k].end
    ensures j == k
  {
  }

  /** With ordered blocks the `in_toc` flag after line `n - 1` says that the
      next line, `n`, is inside the block that line `n - 1` is in. */
  lemma {:induction false} InTocIff(lines: seq<string>, blocks: seq<Block>, mark: bool, tag: string, n: nat)
    requires n <= |lines| && Ordered(blocks)
    ensures RebuildUpTo(lines, StartLines(blocks), EndLines(blocks), mark, tag, n).inToc <==>
      exists k :: 0 <= k < |blocks| && blocks[k].start < n < blocks[k].end
    decreases n, 0
  {
    if n > 0 {
      var i := n - 1;
      InTocStep(lines, blocks, mark, tag, i);
      var after := RebuildUpTo(lines, StartLines(blocks), EndLines(blocks), mark, tag, n);
      assert after.inToc <==> Covered(blocks, i) && i !in EndLines(blocks);
      if i in EndLines(blocks) {
        EndCloses(blocks, i);
      } else {
        InsideContinues(blocks, i);
      }
    }
  }

  /** A block's last line is followed by a line outside every block that covers it. */
  lemma EndCloses(blocks: seq<Block>, i: int)
    requires Ordered(blocks) && i in EndLines(blocks)
    ensures !exists k :: 0 <= k < |blocks| && blocks[k].start < i + 1 < blocks[k].end
  {
    var b :| b in blocks && b.end - 1 == i;
    var j :| 0 <= j < |blocks| && blocks[j] == b;
    assert forall k :: 0 <= k < |blocks| && blocks[k].start < i + 1 < blocks[k].end ==> k == j;
  }

  /** A covered line that no block ends at is followed by a line of the same block. */
  lemma InsideContinues(blocks: seq<Block>, i: int)
    requires Ordered(blocks) && i !in EndLines(blocks)
    ensures Covered(blocks, i) <==> exists k :: 0 <= k < |blocks| && blocks[k].start < i + 1 < blocks[k].end
  {
    if Covered(blocks, i) {
      var k :| 0 <= k < |blocks| && blocks[k].start <= i < blocks[k].end;
      assert blocks[k] in blocks;
      assert i != blocks[k].end - 1;
    }
    if k :| 0 <= k < |blocks| && blocks[k].start < i + 1 < blocks[k].end {
      assert blocks[k].start <= i < blocks[k].end;
    }
  }

  /** When line `i` is processed, the flag is set exactly when line `i` lies in
      a block. */
  lemma InTocStep(lines: seq<string>, blocks: seq<Block>, mark: bool, tag: string, i: nat)
    requires i < |lines| && Ordered(blocks)
    ensures (i in StartLines(blocks) || RebuildUpTo(lines, StartLines(blocks), EndLines(blocks), mark, tag, i).inToc)
      <==> Covered(blocks, i)
    decreases i, 1
  {
    InTocIff(lines, blocks, mark, tag, i);
    var before := RebuildUpTo(lines, StartLines(blocks), EndLines(blocks), mark, tag, i);
    if before.inToc {
      var k :| 0 <= k < |blocks| && blocks[k].start < i < blocks[k].end;
      assert blocks[k].start <= i < blocks[k].end;
    }
    if i in StartLines(blocks) {
      var b :| b in blocks && b.start == i;
      var k :| 0 <= k < |blocks| && blocks[k] == b;
      assert blocks[k].start <= i < blocks[k].end;
    }
    if Covered(blocks, i) && i !in StartLines(blocks) {
      var k :| 0 <= k < |blocks| && blocks[k].start <= i < blocks[k].end;
      assert blocks[k] in blocks;
      assert blocks[k].start < i;
    }
  }

  /** The lines `rebuild_text` keeps without marking: every line outside the
      blocks, and one blank line where each block starts. */
  ghost function KeptLines(lines: seq<string>, blocks: seq<Block>, n: nat): seq<string>
    requires n <= |lines|
  {
    if n == 0 then []
    else
      var i := n - 1;
      KeptLines(lines, blocks, n - 1)
        + (if i in StartLines(blocks) then [""] else [])
        + (if Covered(blocks, i) then [] else [lines[i]])
  }

  /** Without marking, the text is rebuilt from the lines outside the blocks,
      each block replaced by one blank line. */
  lemma {:induction false} FilterRebuild(lines: seq<string>, blocks: seq<Block>, tag: string, n: nat)
    requires n <= |lines| && Ordered(blocks)
    ensures RebuildUpTo(lines, StartLines(blocks), EndLines(blocks), false, tag, n).out == KeptLines(lines, blocks, n)
  {
    if n > 0 {
      FilterRebuild(lines, blocks, tag, n - 1);
      InTocStep(lines, blocks, false, tag, n - 1);
    }
  }

  /** Without blocks the text is rebuilt unchanged. */
  lemma {:induction false} NoBlocksKeepsLines(lines: seq<string>, mark: bool, tag: string, n: nat)
    requires n <= |lines|
    ensures RebuildUpTo(lines, {}, {}, mark, tag, n) == Rebuilding(lines[..n], false)
  {
    if n > 0 {
      NoBlocksKeepsLines(lines, mark, tag, n - 1);
      TakeOneMore(lines, n);
    }
  }
}
