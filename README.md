# clean-pdf-extract line filters in Dafny

This project models two line-level text-cleaning engines of clean-pdf-extract and
proves properties of them:

- **Page-number removal** (`filterpagenumbers.py`). Lines that hold a page number
  on their own become candidates. The longest strictly increasing subsequence of
  their numbers picks the page numbers that fit together. Every line-ordered way
  of choosing one candidate per picked number is enumerated. A page length (lines
  per page) is estimated as a median of medians. Implausible pairs are trimmed
  away and the most uniform sequence is selected. Missing numbers are searched for
  outward from where they should be, with a looser pattern, and the selection is
  run again. Finally every page-number line is stripped out of the output or
  marked with tags.
- **Table-of-contents removal** (`filtertocs.py`). Each line is categorised as a
  TOC line or not. Three passes widen the category: a header pass, an in-between
  pass and majority smoothing. Runs of TOC lines become blocks. Blocks close to
  each other are merged, short blocks are dropped, and the text is rebuilt with
  each block blanked out or wrapped in tags.

The modules follow the source:

| module | what it holds |
|---|---|
| `Wrappers` | an `Option` type |
| `Text` | character classes, greedy scans, `str`/`int` of decimals, tags |
| `Candidates` | `Candidate`, `marked_line`, `line_without_page_number`, the page-number patterns, `page_number_candidates` |
| `Lis` | `longest_increasing_subsequence`, over arrays |
| `Enumeration` | `candidate_sequences` and `_subsequences` |
| `Estimation` | `statistics.median`, `avg_page_len`, `estimate_page_length` |
| `Selection` | `plausible_page_number_pair`, `trim_sequence`, `select_best_sequence` |
| `Repair` | `find_page_number`, `repair_sequence` |
| `PageNumbers` | `make_page_number_sequence` and `process_page_numbers` |
| `TocCategories` | `categorize_toc_lines`, `optional_between_lines_before_toc`, the two recategorisation passes, `smooth_categories` |
| `TocBlocks` | `group_toc_lines`, `combine_blocks`, `filter_blocks`, `rebuild_text` |
| `Tocs` | `filter_tocs` |

Loops of the source are methods with loop invariants. A method whose result a
function of its inputs describes (for example `EstimatePageLength`,
`RepairSequence`, `RenderLines`, `RebuildText`, `Categories`) is proved equal to
that function, and the properties the source promises are lemmas about it. The
methods that chain the steps (`LongestIncreasingSubsequence`,
`CandidateSequences`, `SelectAmong`, `MakePageNumberSequence`,
`SelectPageNumbers`, `ProcessPageNumbers`, `TocBlocksOf`, `FilterTocs`) are
instead specified by what characterises their result: the longest run, the
exact set of enumerated sequences, the best trimmed sequence at the estimated
page length, the combined and filtered maximal runs. Recursive code of the
source (`trim_sequence`, `combine_blocks`, `_subsequences`) is recursive
functions.

Inputs the model takes as parameters:

- The text is the list of its lines, as `splitlines` returns it.
- The command-line options are plain arguments: `max_gap`, `mark`,
  `min_toc_length`, `max_toc_gap`, `mark_tocs` and `toc_tag`.
- The regular expressions of `filtertocs.py` are a `Patterns` record of
  predicates.
- The patterns of `filterpagenumbers.py` are written out as scanners. Lemmas
  show that each scanner matches exactly the strings its regular expression
  describes.

## Model

| member | source | states |
|---|---|---|
| Text.Decimal | filterpagenumbers.py:217 | `str(number)` is a non-empty string of digits without a leading zero |
| Text.DecimalRoundTrip | filterpagenumbers.py:138 | reading back the digits that `str(n)` writes gives `n` |
| Candidates.LineWithoutPageNumber | filterpagenumbers.py:71-77 | the line without its page number exists exactly when the candidate has a span, and is the line shortened by the span's length |
| Candidates.MarkThenStrip | filterpagenumbers.py:62-77 | the marked line is the stripped line with the span's text, wrapped in tags, put back at the span's start |
| Candidates.NumberOnlyMatches | filterpagenumbers.py:18 | the scanner returns `n` exactly when the line is blank space, digits of value `n`, blank space (`NUMBER_ONLY_RE`) |
| Candidates.DashedNumberMatches | filterpagenumbers.py:19 | the scanner returns `n` exactly when the line is blank space, dashes, blank space, digits of value `n`, blank space, dashes, blank space (`DASHED_NUMBER_RE`) |
| Candidates.DashedScan | filterpagenumbers.py:19 | for any split of a line into the pieces of `DASHED_NUMBER_RE`, each greedy scan stops at that split's boundary |
| Candidates.PageNumberOfLine | filterpagenumbers.py:135-140 | a line gives a page number exactly when one of the two patterns matches, and the number-only pattern is tried first |
| Candidates.LooseMatch | filterpagenumbers.py:216-221 | a match of the looser pattern ends within the line and after at least the digits of the number |
| Candidates.LooseMatchIff | filterpagenumbers.py:216-221 | the scanner ends its match at `c + len(str(number))` exactly when the line's first `c` characters are blank space, optionally dashes and blank space, and `str(number)` starts at offset `c` |
| Candidates.PageNumberCandidates | filterpagenumbers.py:132-141 | every candidate is its own line of the text with no span and the number its pattern reads; candidates are in strictly increasing line order; every line that matches gives a candidate |
| Lis.TailSearch | filterpagenumbers.py:99-109 | the binary search returns the first length in `1..max_len+1` whose tail is not below `seq[i]`: all shorter tails are below it, all longer are not |
| Lis.StepKeepsTails | filterpagenumbers.py:111-120 | storing `i` as the tail of length `lo` and linking it to the tail of length `lo-1` keeps the invariant of the main loop (tails increase, tails are the lowest ends, links go to earlier smaller elements one shorter) |
| Lis.BuildTails | filterpagenumbers.py:95-120 | after the main loop, `min_idx`, `pred` and `max_len` satisfy that invariant for the whole input |
| Lis.FollowLinks | filterpagenumbers.py:122-128 | following the predecessor links back from `min_idx[max_len]` gives a strictly increasing subsequence of the input of length `max_len` |
| Lis.RunEndsHigh | filterpagenumbers.py:111-116 | an increasing run of length m ends at a position whose recorded length is at least m |
| Lis.NoRunLonger | filterpagenumbers.py:118-120 | no strictly increasing subsequence of the input is longer than `max_len` |
| Lis.LongestIncreasingSubsequence | filterpagenumbers.py:92-129 | the result is strictly increasing, is a subsequence of the input, and no strictly increasing subsequence is longer |
| Enumeration.WithNumber | filterpagenumbers.py:157-159 | the bucket for `n` holds exactly the candidates numbered `n` |
| Enumeration.GroupByNumber | filterpagenumbers.py:157-159 | the `defaultdict` grouping gives, for every number, the candidates with that number in their order (empty when there are none) |
| Enumeration.ChoiceUnfolds | filterpagenumbers.py:144-152 | a choice is a first pick from the first number's bucket after `prev`, followed by a choice for the rest |
| Enumeration.ExtendExactly | filterpagenumbers.py:149-152 | the loop over a bucket yields exactly the sequences starting with a bucket candidate on a later line than `prev`, followed by a choice for the remaining numbers |
| Enumeration.SubsequencesExactly | filterpagenumbers.py:144-152 | `_subsequences` yields exactly the line-ordered choices of one candidate per number |
| Enumeration.CandidateSequences | filterpagenumbers.py:155-160 | a sequence is produced exactly when it has one element per number, element k is a candidate numbered `numbers[k]`, and its lines strictly increase |
| Estimation.Insert | filterpagenumbers.py:177-178 | inserting into sorted data keeps it sorted and adds exactly that value |
| Estimation.Sort | filterpagenumbers.py:177-178 | the data `median` works on is sorted and a permutation of the input |
| Estimation.Median | filterpagenumbers.py:177-178 | the median lies between two values of the data |
| Estimation.MedianBounds | filterpagenumbers.py:177-178 | any bounds on all values of the data bound the median |
| Estimation.MedianOfConstant | filterpagenumbers.py:177-178 | the median of data that all equal `v` is `v` |
| Estimation.AvgPageLen | filterpagenumbers.py:163-167 | the page length between two candidates is positive, zero or negative as the second candidate is on a later, the same or an earlier line |
| Estimation.PageLengths | filterpagenumbers.py:174-176 | there is one page length per adjacent pair |
| Estimation.PairPageLengths | filterpagenumbers.py:174-176 | the loop collects the page length of each adjacent pair |
| Estimation.SequenceEstimates | filterpagenumbers.py:172-177 | there is one estimate per sequence |
| Estimation.EstimatePositive | filterpagenumbers.py:170-178 | sequences whose lines increase give a positive page length |
| Estimation.EstimateOfUniform | filterpagenumbers.py:170-178 | when every pair of every sequence is `v` lines per page, the estimate is `v` |
| Estimation.EstimatePageLength | filterpagenumbers.py:170-178 | the loops compute the median of the per-sequence medians |
| Selection.FirstImplausible | filterpagenumbers.py:193-194 | finds the first implausible pair from `from` on, with every pair before it plausible, or none exactly when all pairs are plausible |
| Selection.TrimSequence | filterpagenumbers.py:190-199 | the result is a contiguous slice of the input with every pair plausible, non-empty when the input is, and line-increasing when the input is; an input shorter than two or wholly plausible comes back unchanged |
| Selection.TrimCut | filterpagenumbers.py:193-198 | cutting at the first implausible pair and keeping the longer part, the rest on a tie, keeps those properties |
| Selection.Closeness | filterpagenumbers.py:210 | a pair's score is at most one, positive for a positive ratio, and one exactly when the ratio is one |
| Selection.Score | filterpagenumbers.py:205-210 | a sequence scores at most one per pair, and at least zero when its lines increase and the page length is positive |
| Selection.FullScoreIffEven | filterpagenumbers.py:205-210 | a sequence scores one per pair exactly when every one of its pages is as long as the estimate |
| Selection.RatioIsOne | filterpagenumbers.py:209 | the ratio is one exactly when the page length equals the estimate |
| Selection.ScoreSequence | filterpagenumbers.py:205-210 | the inner loop accumulates the score of the sequence |
| Selection.SelectBestSequence | filterpagenumbers.py:202-213 | the result is one of the sequences and no sequence scores higher |
| Repair.Trunc | filterpagenumbers.py:257-259 | `int()` truncates toward zero: within one below a non-negative value, within one above a negative one |
| Repair.SearchFrom | filterpagenumbers.py:224-237 | a line found from distance `d` on lies in the window and holds the number |
| Repair.SearchFromFinds | filterpagenumbers.py:224-237 | from distance `d` on, the line found is the first matching line of the window in the search order, and nothing is found only when no line of the window at that distance or more matches |
| Repair.LowerFirst | filterpagenumbers.py:228-230 | at distance `d`, no line comes before `start - d` in the search order |
| Repair.UpperNext | filterpagenumbers.py:231-233 | at distance `d`, only `start - d` comes before `start + d` |
| Repair.MissAt | filterpagenumbers.py:226-236 | with neither line at distance `d` matching, what holds from `d + 1` on also holds from `d` on |
| Repair.SearchFinds | filterpagenumbers.py:224-237 | the search returns a matching line of the window that comes first in order of distance from `start_line`, the lower line before the higher at equal distance, and returns nothing exactly when no line of the window matches |
| Repair.FoundAt | filterpagenumbers.py:235 | the candidate made from a match has the number, the line index, the text of that line and a span, and is what the looser pattern matched on that line |
| Repair.ProbeAt | filterpagenumbers.py:227-235 | one run of the loop returns the candidate of what the search finds at distance `d`, or nothing when the search moves on to `d + 1` |
| Repair.FindPageNumber | filterpagenumbers.py:224-237 | the loop returns nothing exactly when the search finds nothing, and otherwise the candidate of the line it finds |
| Repair.AsWrittenLeavesWindow | filterpagenumbers.py:226-233 | (finding) the loop as written returns line 20 from the window `[10, 14]`, and, called directly with fifteen lines, indexes past the end |
| Repair.SearchWindow | filterpagenumbers.py:251-254 | the window lies strictly between the lines of `prev` and `curr` |
| Repair.FoundFor | filterpagenumbers.py:255-263 | the search for one missing number adds at most one candidate, on a line of the text strictly between the neighbours, carrying that number as the looser pattern matched it on that line |
| Repair.Gap | filterpagenumbers.py:246-263 | nothing is inserted when more than `max_gap` numbers are missing; otherwise at most one candidate per missing number, each a match of the looser pattern on its line, with numbers and lines strictly between the neighbours' and numbers increasing |
| Repair.GapFillFits | filterpagenumbers.py:250-263 | the candidates found for the missing numbers fit between the neighbours, with numbers increasing |
| Repair.AssembleLayout | filterpagenumbers.py:243-264 | the repaired sequence keeps every original candidate in order, and holds between each adjacent pair exactly the candidates found for that gap |
| Repair.AssembleIncreases | filterpagenumbers.py:243-264 | inserting gaps that fit keeps the page numbers strictly increasing |
| Repair.GapsFacts | filterpagenumbers.py:244-263 | every gap fits between its neighbours and holds only candidates that the looser pattern matched on their lines |
| Repair.GapMemberFound | filterpagenumbers.py:255-263 | a candidate of a gap is a match of the looser pattern on its own line of the text |
| Repair.RepairFacts | filterpagenumbers.py:240-265 | repairing keeps the numbers strictly increasing, returns an input shorter than two unchanged, and adds only candidates that the looser pattern matched on their lines |
| Repair.GapFillStep | filterpagenumbers.py:255-263 | one more search extends the gap by the candidate it found, if any |
| Repair.SearchGap | filterpagenumbers.py:250-263 | the loop over the missing numbers collects what the searches find, in order |
| Repair.RepairSequence | filterpagenumbers.py:240-265 | the loop returns the input with the gaps inserted |
| Repair.RepairedLength | filterpagenumbers.py:240-265 | repairing only inserts, so the result is at least as long as the input |
| Repair.RepairedPair | filterpagenumbers.py:243-265 | repairing two candidates returns them with the candidates found for their gap between them |
| Repair.OnlyMatch | filterpagenumbers.py:224-237 | in the example text, 2 is found only on line 18 of the window `[1, 20]` and 3 only on line 12 of `[10, 29]`, so the search finds them there from any start line |
| Repair.ExampleFinds | filterpagenumbers.py:250-263 | between page 1 on line 0 and page 4 on line 30, at ten lines per page, the search for 2 computes the window `[1, 20]` around line 10 and finds line 18, and the search for 3 computes `[10, 29]` around line 20 and finds line 12 |
| Repair.ExampleGap | filterpagenumbers.py:246-263 | the gap between pages 1 and 4 of the example text is the candidate for 2 on line 18 followed by the candidate for 3 on line 12 |
| Repair.RepairOutOfOrder | filterpagenumbers.py:240-265 | repairing pages 1 and 4 of the example text inserts 2 on line 18 before 3 on line 12, so the repaired sequence is not in line order |
| PageNumbers.Numbers | filterpagenumbers.py:269 | the numbers of the candidates, in order |
| PageNumbers.OnNumbers | filterpagenumbers.py:272-273 | exactly the candidates whose number is in the set are kept |
| PageNumbers.PickedRun | filterpagenumbers.py:269-273 | the positions the LIS is read from form an increasing run |
| PageNumbers.SpelledChoice | filterpagenumbers.py:269-275 | when the candidates are in line order, the candidates at the LIS positions spell the LIS on increasing lines, so there is at least one enumerated sequence |
| PageNumbers.EnumeratedEstimable | filterpagenumbers.py:275-279 | the sequences enumerated for a LIS of two or more numbers are ones the estimate accepts, and their lines increase |
| PageNumbers.TrimAll | filterpagenumbers.py:282 | each sequence is replaced by its trimmed form |
| PageNumbers.SelectAmong | filterpagenumbers.py:279-284 | the page length is the median-of-medians estimate of all the sequences; the sequence selected is one of the trimmed sequences and no trimmed sequence scores higher at that length; it is non-empty, made of the given candidates, increasing in numbers and lines, with every pair plausible, and the page length is positive |
| PageNumbers.TrimmedShape | filterpagenumbers.py:282 | a trimmed sequence of line-increasing sequences is non-empty, made of the pool, increasing in numbers and lines, with every pair plausible |
| PageNumbers.MakePageNumberSequence | filterpagenumbers.py:268-285 | a result is, for a longest strictly increasing subsequence of the numbers, the best-scoring trimmed sequence among exactly the line-ordered choices of candidates spelling it, at the page length estimated from those choices; the result properties of `SelectAmong` hold; without a rising pair of numbers the source's `median` fails (`None`), and with a rising pair among line-ordered candidates it does not |
| PageNumbers.ByLineIndex | filterpagenumbers.py:302 | the map holds, at each key, a candidate of the sequence on that line, and every candidate's line is a key |
| PageNumbers.ByLineIndexOfIncreasing | filterpagenumbers.py:302 | when the lines increase, the map finds each candidate at its own line and holds one entry per candidate |
| PageNumbers.DistinctImage | filterpagenumbers.py:302 | candidates on increasing lines have distinct line indexes |
| PageNumbers.MarkKeepsLines | filterpagenumbers.py:303-313 | in mark mode every line is printed once, marked when a candidate is on it |
| PageNumbers.StripDropsPageLines | filterpagenumbers.py:303-313 | without marking no more lines are printed than read, and when every candidate is a whole line exactly the other lines are printed |
| PageNumbers.RenderLines | filterpagenumbers.py:303-313 | the loop prints what the output function gives for each line |
| PageNumbers.PageStripExample | filterpagenumbers.py:303-313 | two page-number lines are dropped from a five-line page |
| PageNumbers.PageMarkExample | filterpagenumbers.py:62-64 | with marking they are wrapped in `<pagenumber>` tags |
| PageNumbers.SpanStripExample | filterpagenumbers.py:71-77 | a number found at the start of a line of text is cut out of it |
| PageNumbers.SpanMarkExample | filterpagenumbers.py:65-69 | with marking, such a number is tagged in place |
| PageNumbers.RisingCandidates | filterpagenumbers.py:294-296 | the first-pass candidates have a rising pair of numbers exactly when two lines, the later with the larger number, are page numbers by themselves |
| PageNumbers.FirstWithinLines | filterpagenumbers.py:294-298 | what the first pass picks from the candidates lies on the lines |
| PageNumbers.SecondIsFinal | filterpagenumbers.py:298-300 | what the second pass picks from the repaired first pass is on increasing lines with increasing numbers, and each candidate is a page-number match on its own line |
| PageNumbers.TwoPasses | filterpagenumbers.py:294-300 | the first pass on the candidates of the lines, then the second pass on the repaired result, give the sequence the two passes select |
| PageNumbers.IncreasingRises | filterpagenumbers.py:268-285 | two or more candidates with increasing numbers hold a rising pair of numbers |
| PageNumbers.SecondFails | filterpagenumbers.py:294-300 | a first pass whose repaired sequence has no rising pair, or is not in line order, shows that the second pass fails |
| PageNumbers.SelectPageNumbers | filterpagenumbers.py:294-300 | without two rising page-number lines the first pass fails (`None`); `None` is returned only when there are no such lines, or when some first pass picked a single candidate, or when repairing it put candidates out of line order; a result is the sequence the first pass, repair and the second pass select, and it is final |
| PageNumbers.PrintSequence | filterpagenumbers.py:302-313 | the output loop prints, for each line, the line, its marked form or its form without the page number, no more lines than read, and in mark mode exactly as many |
| PageNumbers.ProcessPageNumbers | filterpagenumbers.py:288-313 | without two rising page-number lines the source fails (`None`); it fails only then, or when some first pass picked a single candidate, or when repairing it put candidates out of line order; when it returns an output, the output is what the output loop prints for the sequence the two passes select, which is on increasing lines with increasing numbers and made of page-number matches on their own lines; the output is no longer than the text, and in mark mode exactly as long |
| TocCategories.CategorizeTocLines | filtertocs.py:79-86 | one pair per line, in order, with the line unchanged and a TOC category exactly when the TOC-line pattern matches |
| TocCategories.LookAhead | filtertocs.py:102-115 | the scan answers true exactly when a TOC line at or after `index` is reached with only in-between lines before it |
| TocCategories.ReachesTocThrough | filtertocs.py:109-115 | a TOC line preceded from `index` on only by TOC or in-between lines is reached |
| TocCategories.RecategorizePrecedingLines | filtertocs.py:118-132 | the pass keeps the number of lines and their text, and never takes the TOC category away |
| TocCategories.HeaderBlockIff | filtertocs.py:122-129 | a line is in a header block exactly when a header line at or before it starts a stretch of TOC and in-between lines that runs past it to a TOC line |
| TocCategories.NoHeaderNoChange | filtertocs.py:118-132 | without a header line the pass changes nothing |
| TocCategories.NoTocNoHeaderBlock | filtertocs.py:118-132 | without a TOC line the pass changes nothing |
| TocCategories.RecategorizeInBetweenLines | filtertocs.py:135-147 | the pass keeps the number of lines and their text, and never takes the TOC category away |
| TocCategories.InBetweenIff | filtertocs.py:139-146 | after the pass a line is a TOC line exactly when it was one, or lies between two TOC lines with only in-between lines separating them |
| TocCategories.NoTocNoChange | filtertocs.py:135-147 | without a TOC line the pass changes nothing |
| TocCategories.CountToc | filtertocs.py:157 | the TOC count of a window is at most its size |
| TocCategories.CountTocIsSize | filtertocs.py:157 | the count is the number of TOC positions in the window |
| TocCategories.SmoothCategories | filtertocs.py:150-161 | smoothing keeps the number of lines and their text, and never takes the TOC category away |
| TocCategories.SmoothNeedsMajority | filtertocs.py:153-159 | a line becomes a TOC line only when more than half the positions of its clipped window are TOC lines |
| TocCategories.SmoothWidthOne | filtertocs.py:150-161 | with width one a line ends up TOC exactly when it was, or it is an inner line with a TOC line on each side |
| TocCategories.SmoothNoToc | filtertocs.py:150-161 | without a TOC line smoothing changes nothing |
| TocBlocks.GroupAsWritten | filtertocs.py:164-180 | (finding) grouping as written: every block ends before the last line |
| TocBlocks.LastRunLosesLine | filtertocs.py:178-179 | (finding) five TOC lines that end the text give the block `(0, 4)`, which misses a TOC line, and the length filter drops it |
| TocBlocks.LastRunOfFive | filtertocs.py:164-180 | the corrected grouping gives `(0, 5)` for those lines, and the filter keeps it |
| TocBlocks.RunsMeet | filtertocs.py:164-180 | two maximal runs of TOC lines that share a line are the same run |
| TocBlocks.RunIn | filtertocs.py:164-180 | every maximal run of TOC lines is among any ordered list of the maximal runs that covers every TOC line |
| TocBlocks.SameOrdered | filtertocs.py:164-180 | two ordered lists of blocks that hold the same blocks are equal |
| TocBlocks.RunsUnique | filtertocs.py:164-180 | there is only one ordered list of the maximal runs of TOC lines |
| TocBlocks.GroupTocLines | filtertocs.py:164-180 | the blocks are exactly the maximal runs of TOC lines, in order and disjoint |
| TocBlocks.CloseRun | filtertocs.py:175-177 | closing the open run adds one maximal run after the others |
| TocBlocks.FirstCombinable | filtertocs.py:201-202 | finds the first adjacent pair that can be combined, or none exactly when no pair can |
| TocBlocks.Merge | filtertocs.py:203-204 | a merge leaves one block fewer and keeps the starts increasing |
| TocBlocks.MergeAt | filtertocs.py:203-204 | a merge replaces blocks `i` and `i+1` by `(start of i, end of i+1)` and keeps the others |
| TocBlocks.CombineBlocks | filtertocs.py:183-207 | combining ends with no more blocks than it started with, starts increasing, and no adjacent pair that could be combined |
| TocBlocks.MergeCoarser | filtertocs.py:203-204 | every block lies inside a block of the merged list |
| TocBlocks.MergeOrdered | filtertocs.py:203-204 | merging keeps ordered, disjoint blocks ordered and disjoint |
| TocBlocks.CombineCoarsens | filtertocs.py:183-207 | combining keeps the blocks ordered and disjoint; every input block lies inside a result block; every result block starts at an input start and ends at an input end |
| TocBlocks.FilterBlocks | filtertocs.py:210-211 | a block is kept exactly when it is an input block at least `min_toc_length` long |
| TocBlocks.FilterKeepsOrder | filtertocs.py:210-211 | the filter keeps the blocks in order |
| TocBlocks.RebuildText | filtertocs.py:214-233 | the loop builds the rebuilt lines and joins them, each followed by a line feed |
| TocBlocks.InTocIff | filtertocs.py:217-231 | after a line, the `in_toc` flag is set exactly when the next line lies strictly inside a block after its first line |
| TocBlocks.FilterRebuild | filtertocs.py:214-231 | without marking, the rebuilt lines are the lines outside the blocks, with one blank line where each block starts |
| TocBlocks.MarkRoundTrip | filtertocs.py:219-231 | with marking, deleting the tag lines from the rebuilt lines gives back the input lines, when no input line is itself a tag line |
| TocBlocks.NoBlocksKeepsLines | filtertocs.py:214-233 | without blocks every line is kept as it is |
| Tocs.Categories | filtertocs.py:239-242 | the categorising passes give the final categories, and no line is TOC when no line matches the TOC-line pattern |
| Tocs.TocBlocksOf | filtertocs.py:244-246 | the blocks are the maximal runs of TOC lines, combined and then filtered; they are ordered, inside the text, long enough, and start and end on TOC lines; every run long enough by itself lies inside one of them; there are none when no line is TOC |
| Tocs.LongRunsKept | filtertocs.py:244-246 | a run of TOC lines long enough by itself lies inside a combined block that the filter keeps |
| Tocs.PlausibleBlocks | filtertocs.py:244-246 | combining and filtering the maximal runs leaves such blocks |
| Tocs.RebuiltFacts | filtertocs.py:248 | the rebuilt text keeps the lines outside the blocks, or, marked, all lines between tag lines |
| Tocs.FilterTocs | filtertocs.py:236-248 | the text is rebuilt around the blocks that combining and filtering the maximal runs of the final categories gives, which are plausible and take in every long enough run; a text without a TOC-looking line comes back unchanged, each line followed by a line feed |

## Left out

- `normalizeencoding.py` is not part of this model: it wraps `ftfy` and `unicodedata`, whose behaviour lies outside the repository.
- `cleanpdfextract.py` is not part of this model: it only chains the filters and does I/O.
- Argument parsing, logging, reading files and `print` are left out. The options are parameters, and the output is a list of lines (`ProcessPageNumbers`) or a string (`FilterTocs`).
- `text.splitlines()` is left out. The lines are the input, so line separators other than `\n` are not modelled.
- The regular expressions of `filtertocs.py` (`TOC_LINE_RE`, `LOOSE_TOC_LINE_RE_1`, `LOOSE_TOC_LINE_RE_2` and `TOC_HEADER_RE`, with its case folding) are predicates in `Patterns`. `BLANK_LINE_RE` and `SHORT_LINE_RE` are written out.
- `\d` is modelled as the ASCII digits. Python also accepts other Unicode decimal digits.
- The warning for more than 100 candidate sequences (filterpagenumbers.py:276-277) is left out: it is logging only, and it names an undefined variable `fn`.
- `non_toc_line_between_toc_lines` (filtertocs.py:89-99) is left out: nothing calls it.
- Selection.SelectBestSequence: states only that the result has the highest score. The source's sort breaks ties by comparing the candidate lists; the model keeps the first sequence of the highest score.
- Floats are modelled as exact `real` numbers. Rounding in divisions, in the median and in the `ratio > 0.5` test of smoothing is not modelled; `Majority` states that test exactly as `2 * count > size`.
- `statistics.median` of an empty list raises `StatisticsError`. The model returns `None` from `MakePageNumberSequence` and `ProcessPageNumbers` instead. Besides text without two rising page-number lines, this happens in the second pass in two ways. First, when the first pass picks a single candidate, repair returns it unchanged and the second pass computes `median([])`. Second, repair can insert two missing numbers of one gap out of line order when their windows overlap. `Repair.RepairOutOfOrder` shows one such text. No line-ordered choice then spells all the numbers in the second pass, so `candidate_sequences` returns nothing and the median fails. `PageNumbers.SecondPassFails` names these two cases.
- The `assert prev.number < curr.number` of `avg_page_len` is a precondition, met everywhere because the sequences have increasing numbers.
- PageNumbers.MakePageNumberSequence: pins the enumerated sequences down by which sequences they hold, not by their order or repetitions. The page-length median can depend on repetitions, and the choice among equal scores on the order. It also pins the result down only up to which longest increasing subsequence is taken. The source takes the one rebuilt from `min_idx[max_len]` through the predecessor links, and that choice decides which candidates are enumerated.
- Repair.FindPageNumber: models the search corrected to stay inside the window (see Findings). The as-written loop is the function `Repair.FindAsWritten`. `Repair.RepairSequence` and `PageNumbers.ProcessPageNumbers` use the corrected search.
- TocBlocks.GroupTocLines: models grouping corrected to close the last run one past the last line (see Findings). The as-written grouping is the function `TocBlocks.GroupAsWritten`, and `Tocs.FilterTocs` uses the corrected grouping.
- `smooth_categories` is modelled for any width (`SmoothCategories`). `filter_tocs` uses width one, as the source does.
- `combine_blocks` is modelled on blocks with increasing starts, which `group_toc_lines` always produces. Its `assert b1[0] < b2[0]` is then never violated.

## Findings

| source | as written | input that shows it | evidently intended | confidence | as-written member | corrected member |
|---|---|---|---|---|---|---|
| filterpagenumbers.py:226-233 | the downward probe is checked only against `min_line` and the upward probe only against `max_line`, so when `int(start_line)` lies outside `[min_line, max_line]` lines outside the window are probed | 21 lines with `"3"` alone on line 20, searching for 3 around line 20 in the window `[10, 14]`: line 20 is returned; called directly with 15 lines, `lines[20]` is out of range | only lines inside `[min_line, max_line]` are probed, so found candidates lie strictly between their neighbours | not executed | Repair.AsWrittenLeavesWindow | Repair.SearchFinds |
| filtertocs.py:178-179 | a run of TOC lines that reaches the last line is closed as `(start, i)`, with `i` the last index, while runs closed inside the loop end one past their last TOC line | five TOC lines that end the text: the block is `(0, 4)`, the last TOC line is outside it, and the length filter (minimum five) drops the block | the run is closed as `(start, len(categorized))`, giving `(0, 5)` | not executed | TocBlocks.LastRunLosesLine | TocBlocks.LastRunOfFive |
