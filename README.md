# Advent of Code 2024, days 1 to 6, in Dafny

This project models the puzzle solvers in `aoc_2024/src/bin/day1.rs` through
`day6.rs` and proves properties of the models. File reading and printing are
left out. The solvers are:

- **The guard patrol of day 6** (`guard_patrol.dfy`, module `GuardPatrol`), the
  largest part. It covers the grid parser, the one-cell step, and the path
  tracer that collects the cells the guard walks into. It also covers the loop
  detector, which records the pose at each turn, and the obstruction search,
  which blocks one cell at a time, re-runs the detector and restores the cell.
  One step of the walk is the function `Step`; n steps are `Walk`.
  - The loop detector is a method proved to answer exactly "the walk never
    leaves the grid". Its termination measure is the pair (turn poses not yet
    recorded, distance to the edge).
  - `LabInput` is a class whose `grid` field the obstruction search changes in
    place. The search is proved to leave the grid as it found it.
- **The location lists of day 1** (`location_lists.dfy`, `LocationLists`).
  Parsing tokens in pairs, sorting, the sum of paired distances, the
  similarity score, and the two-index "optimized" similarity score.
- **Report safety of day 2** (`report_safety.dfy`, `ReportSafety`). The
  strictly monotone, bounded-step predicate, the one-level dampener, the two
  counts and the parser.
- **The `mul` instructions of day 3** (`mul_instructions.dfy`,
  `MulInstructions`).
  - `multiply` is a hand-written scanner for the fixed pattern
    `mul(` 1-3 digits `,` 1-3 digits `)`, taking leftmost, non-overlapping
    matches.
  - `conditional_multiply` skips the text from each `don't()` to the next
    `do()`.
- **The word search of day 4** (`word_search.dfy`, `WordSearch`). `count_for`
  follows one direction; `find_xmas_count` tries every cell and every
  direction except (0, 0).
- **The print queue of day 5** (`print_queue.dfy`, `PrintQueue`). It parses the
  ordering rules and the updates, checks an update against the rules, and sums
  the middle pages of the valid updates.

`text.dfy` (`Text`) models the Rust standard-library string operations the
solvers rely on. These are `split`, `lines`, `trim`, `split_whitespace`,
`find` and integer `parse`. `wrappers.dfy` holds `Option` and `Result`. Every
`anyhow` error and every `unwrap` panic becomes a `None`, an `Err` or an
`IndexOutOfBounds` outcome.

In these places the model follows the code as written:

- **Day 6, rectangular grids:** the parser does not check that the grid is
  rectangular. The model requires a rectangular grid of the methods that index
  it (`LabInput.Valid`).
- **Day 6, the start cell:** the path tracer does not insert the start cell. It
  appears in the path only when the guard walks back over it
  (`LoneGuardEntersNothing`).
- **Day 6, more than one guard:** the parser takes the first `^` in row-major
  order; it does not insist on exactly one.
- **Day 6, blank lines:** blank lines are not rejected. `lines()` is followed,
  and an empty line is an empty row.

Two solvers fail on a text that ends in a line feed, and the model says so:

- Day 2's parser returns an error (`ReportSafety.TrailingLineFeedRejected`).
- Day 5's parser panics on the empty last update line
  (`PrintQueue.TrailingLineFeedFails`).

## Model

| member | source | states |
|---|---|---|
| GuardPatrol.Offset | aoc_2024/src/bin/day6.rs:179-186 | each direction moves exactly one of the two coordinates, by -1 or +1 |
| GuardPatrol.TurnRight | aoc_2024/src/bin/day6.rs:188-195 | turning right rotates the offset a quarter turn clockwise: (dx, dy) becomes (dy, -dx) |
| GuardPatrol.OffsetInjective | aoc_2024/src/bin/day6.rs:179-186 | different directions have different offsets |
| GuardPatrol.TurnRightCycle | aoc_2024/src/bin/day6.rs:188-195 | four right turns are the identity, and one, two or three turns never are |
| GuardPatrol.ApplyOffset | aoc_2024/src/bin/day6.rs:33-42 | the shifted position exists exactly when both shifted coordinates are non-negative and below their limits, and then it is the shifted position |
| GuardPatrol.NextMove | aoc_2024/src/bin/day6.rs:139-148 | never changes direction; returns no move exactly when the one-cell step leaves the grid, and otherwise the neighbouring cell in that direction |
| GuardPatrol.Step | aoc_2024/src/bin/day6.rs:98-108 | one loop iteration: ends exactly when the next cell is outside; facing an obstruction the guard turns right in place, otherwise it moves one cell into an in-bounds, unobstructed cell keeping its direction |
| GuardPatrol.StepMovesOrTurns | aoc_2024/src/bin/day6.rs:126-132 | a step either changes the position or the direction, never both and never neither |
| GuardPatrol.WalkAdd | aoc_2024/src/bin/day6.rs:98-108 | walking i + j steps is walking i steps and then j more |
| GuardPatrol.WalkEnded | aoc_2024/src/bin/day6.rs:98-109 | once the walk has left the grid it stays ended |
| GuardPatrol.RepeatedPoseLoops | aoc_2024/src/bin/day6.rs:100-102 | a pose met twice means the walk goes on for every number of steps |
| GuardPatrol.EnteredSnoc | aoc_2024/src/bin/day6.rs:126-131 | each further step adds to the path only the cell moved into; a turn adds nothing |
| GuardPatrol.EnteredAfterExit | aoc_2024/src/bin/day6.rs:117-135 | after the walk has left the grid the set of entered cells no longer grows |
| GuardPatrol.EnteredCellsAreOpen | aoc_2024/src/bin/day6.rs:126-130 | every entered cell is inside the grid and not obstructed |
| GuardPatrol.LoneGuardEntersNothing | aoc_2024/src/bin/day6.rs:112-135 | the start cell is not inserted up front: a guard alone on a 1x1 grid leaves at once and the path is empty |
| GuardPatrol.TileFromChar | aoc_2024/src/bin/day6.rs:81-89 | a character is a tile exactly when it is '.', '#' or '^' |
| GuardPatrol.TileTableRoundTrip | aoc_2024/src/bin/day6.rs:82-87 | the tile table and its inverse undo each other |
| GuardPatrol.ParseRow | aoc_2024/src/bin/day6.rs:58 | a line parses exactly when every character is a tile, and then tile k is the tile of character k |
| GuardPatrol.ParseRows | aoc_2024/src/bin/day6.rs:56-59 | the grid parses exactly when every line does, row i being line i parsed |
| GuardPatrol.FindGuardInRow | aoc_2024/src/bin/day6.rs:64-67 | the found column holds the guard and no earlier column does |
| GuardPatrol.FindGuard | aoc_2024/src/bin/day6.rs:60-69 | the found position holds the guard and is the first one in row-major order; none is found only when no cell holds the guard |
| GuardPatrol.ParseLab | aoc_2024/src/bin/day6.rs:55-75 | parsing succeeds exactly when every character of every line is a tile and some character is '^'; it yields the parsed rows and the first guard |
| GuardPatrol.RowTexts | aoc_2024/src/bin/day6.rs:82-87 | the printed rows have the grid's shape and each character is its tile's character |
| GuardPatrol.ParseRendered | aoc_2024/src/bin/day6.rs:56-59 | printing a grid and parsing the text back gives the same grid |
| GuardPatrol.TileRowRoundTrip | aoc_2024/src/bin/day6.rs:58 | a printed row parses back to the row it came from |
| GuardPatrol.WithObstruction | aoc_2024/src/bin/day6.rs:160 | blocking a cell keeps the grid rectangular and its dimensions unchanged |
| GuardPatrol.PoseInside | aoc_2024/src/bin/day6.rs:96-100 | every in-bounds pose is among the finitely many the detector may record |
| GuardPatrol.NewCornerShrinks | aoc_2024/src/bin/day6.rs:100-103 | recording a new turn pose strictly reduces the poses still unrecorded, the first part of the detector's termination measure |
| GuardPatrol.MoveApproachesEdge | aoc_2024/src/bin/day6.rs:106-107 | a move strictly shortens the distance to the edge in the current direction, the second part of the measure |
| GuardPatrol.LabInput.constructor | aoc_2024/src/bin/day6.rs:70-74 | the lab holds the given grid, guard position and direction |
| GuardPatrol.LabInput.FromStr | aoc_2024/src/bin/day6.rs:55-75 | fails exactly when parsing fails; otherwise a fresh lab with the parsed grid and the first guard, facing up |
| GuardPatrol.LabInput.IsGuardStuckInLoop | aoc_2024/src/bin/day6.rs:93-110 | terminates, and answers true exactly when the walk never leaves the grid; a true answer comes with two different step counts at which the same pose faces an obstruction |
| GuardPatrol.LabInput.PatrolPositionPath | aoc_2024/src/bin/day6.rs:112-136 | for a walk that leaves the grid, returns exactly the cells the guard moved into, all in bounds and unobstructed |
| GuardPatrol.ObstructionPositionCount | aoc_2024/src/bin/day6.rs:150-168 | leaves the grid as it was; the count is the number of candidate cells other than the start whose blocking makes the walk loop, hence at most the number of candidates other than the start |
| GuardPatrol.TrialObstruction | aoc_2024/src/bin/day6.rs:159-165 | blocking one cell, asking the detector and restoring the tile leaves the grid unchanged and answers whether the walk loops with that cell blocked |
| GuardPatrol.RestoreTile | aoc_2024/src/bin/day6.rs:159-165 | writing the saved tile back undoes the obstruction |
| GuardPatrol.LoopInducingAdd | aoc_2024/src/bin/day6.rs:155-163 | one more candidate adds itself to the loop-inducing cells exactly when it is not the start and blocking it makes the walk loop |
| GuardPatrol.LoopInducingExcludesStart | aoc_2024/src/bin/day6.rs:156-158 | the start cell is never counted, and the count is at most the number of other candidates |
| LocationLists.Pairs | aoc_2024/src/bin/day1.rs:53 | tokens are taken two at a time in order; an odd last token is dropped |
| LocationLists.PairsFlatten | aoc_2024/src/bin/day1.rs:53 | taking the ids of a list of pairs two at a time gives the pairs back |
| LocationLists.ParseLocationData | aoc_2024/src/bin/day1.rs:52-68 | succeeds exactly when every paired token is a `usize`; the two lists then have the same length and hold the parsed left and right ids in order |
| LocationLists.ParsePairs | aoc_2024/src/bin/day1.rs:53-62 | the fold pushes the parsed ids of each pair in order, and fails exactly when one does not parse |
| LocationLists.Insert | aoc_2024/src/bin/day1.rs:42-43 | inserting into a sorted list keeps it sorted and adds exactly one element |
| LocationLists.Sort | aoc_2024/src/bin/day1.rs:42-43 | the result is sorted and a permutation of the input |
| LocationLists.SortedUnique | aoc_2024/src/bin/day1.rs:42-43 | two sorted permutations of each other are equal, so the sorted lists are determined by the parsed ones |
| LocationLists.FromLocationData | aoc_2024/src/bin/day1.rs:38-47 | both lists come out sorted and are permutations of the parsed lists |
| LocationLists.GetLocationData | aoc_2024/src/bin/day1.rs:33-36 | fails exactly when some id of a pair is not a `usize`; otherwise each list is sorted and a permutation of the ids read on its side |
| LocationLists.SumOfDiffs | aoc_2024/src/bin/day1.rs:72-78 | the total distance: the sum of the absolute differences of the ids paired by position, over as many pairs as the shorter list has (no contract of its own; see the two rows below) |
| LocationLists.SumOfDiffsZero | aoc_2024/src/bin/day1.rs:72-78 | the distance is 0 exactly when the paired prefixes are equal |
| LocationLists.SumOfDiffsSymmetric | aoc_2024/src/bin/day1.rs:72-78 | swapping the two lists leaves the distance unchanged |
| LocationLists.CountMap | aoc_2024/src/bin/day1.rs:81-85 | the count map holds exactly the right ids, each with its number of occurrences |
| LocationLists.SimilarityScore | aoc_2024/src/bin/day1.rs:80-90 | the score computed through a count map of the right list, each left id weighted by its count or by 0 when absent (no contract of its own; the next row states what it equals) |
| LocationLists.SimilarityScoreIsReference | aoc_2024/src/bin/day1.rs:80-90 | the score over the count map equals the sum, over the left ids, of the id times its occurrences in the right list |
| LocationLists.SimilarityScoreOptimizedAsWritten | aoc_2024/src/bin/day1.rs:92-127 | the two-index loop as written: when it finishes, its score is the reference score; it can only finish when the right list's last id exceeds the left list's last id; and it does finish when, besides, the left list's last id occurs in the right list, or both lists are empty |
| LocationLists.SimilarityScoreOptimized | aoc_2024/src/bin/day1.rs:92-127 | with its two index guards added, the two-index loop returns the reference score on sorted lists of equal length |
| LocationLists.SkipSmallerLeft | aoc_2024/src/bin/day1.rs:101-104 | skips exactly the left ids below the current right id, and the skipped ids add nothing to the score |
| LocationLists.SkipSmallerRight | aoc_2024/src/bin/day1.rs:105-108 | stops at the first right id not below the current left id |
| LocationLists.SkipLeftDuplicates | aoc_2024/src/bin/day1.rs:109-113 | stops at the last copy of the current left id and counts the copies |
| LocationLists.CountOnRight | aoc_2024/src/bin/day1.rs:114-118 | counts the right ids equal to the current left id and stops past the last of them, or at the end of the list |
| LocationLists.SampleScores | aoc_2024/src/bin/day1.rs:150-168 | the test lists give a distance of 11 and a similarity score of 31 |
| LocationLists.SampleSimilarityOptimized | aoc_2024/src/bin/day1.rs:160-168 | the guarded two-index loop gives 31 on the test lists |
| LocationLists.SampleSimilarityOptimizedAsWritten | aoc_2024/src/bin/day1.rs:160-168 | the two-index loop as written finishes on the test lists and gives 31 |
| LocationLists.SampleLocationData | aoc_2024/src/bin/day1.rs:135-148 | `get_location_data` on the test text gives the sorted lists [1, 2, 3, 3, 3, 4] and [3, 3, 3, 4, 5, 9] |
| LocationLists.SamplePairs | aoc_2024/src/bin/day1.rs:136-141 | the test text reads as the id pairs (3,4), (4,3), (2,5), (1,3), (3,9), (3,3), in order |
| LocationLists.IndentedLinesTokens | aoc_2024/src/bin/day1.rs:136-141 | lines of two ids each, indented as in the test text, split into those ids in order |
| LocationLists.OptimizedAsWrittenFailsOnSinglePair | aoc_2024/src/bin/day1.rs:115-118 | on left = [1], right = [1] the counting loop reads past the end of the right list, although the score is 1 |
| ReportSafety.IsSafe | aoc_2024/src/bin/day2.rs:44-52 | reports of zero or one level are safe |
| ReportSafety.IsSafeMeans | aoc_2024/src/bin/day2.rs:44-52 | safe exactly when every adjacent pair rises by 1 to 3, or every adjacent pair falls by 1 to 3 |
| ReportSafety.SafeSlice | aoc_2024/src/bin/day2.rs:44-52 | every contiguous part of a safe report is safe |
| ReportSafety.RemoveAt | aoc_2024/src/bin/day2.rs:58-60 | dropping index i keeps the levels before i and shifts those after it down by one |
| ReportSafety.IsSafeWithDampener | aoc_2024/src/bin/day2.rs:56-63 | an empty report is not dampener-safe |
| ReportSafety.DampenerMeans | aoc_2024/src/bin/day2.rs:56-63 | dampener-safe exactly when deleting some single level leaves a safe report |
| ReportSafety.SafeIsDampenerSafe | aoc_2024/src/bin/day2.rs:44-63 | a safe non-empty report is dampener-safe |
| ReportSafety.NumOfSafeReports | aoc_2024/src/bin/day2.rs:66-68 | the number of safe reports (no contract of its own; ReportSafety.CountsAreCardinalities states it) |
| ReportSafety.NumOfSafeReportsWithDampener | aoc_2024/src/bin/day2.rs:70-72 | the number of dampener-safe reports (no contract of its own; ReportSafety.CountsAreCardinalities states it) |
| ReportSafety.SafeCountUpTo | aoc_2024/src/bin/day2.rs:66-72 | a count never exceeds the number of reports considered |
| ReportSafety.CountsAreCardinalities | aoc_2024/src/bin/day2.rs:66-72 | each count is the number of indices of reports with the property, and at most the number of reports |
| ReportSafety.DampenerCountsMore | aoc_2024/src/bin/day2.rs:66-72 | with no empty report, the safe count is at most the dampened count |
| ReportSafety.ParseReport | aoc_2024/src/bin/day2.rs:29-32 | one line, trimmed and split on single spaces, each piece parsed as an `i32` (no contract of its own; see ReportSafety.ParseLevels and ReportSafety.EmptyLineRejected) |
| ReportSafety.ParseLevels | aoc_2024/src/bin/day2.rs:30-32 | a line parses exactly when every piece is an `i32`, level k being piece k |
| ReportSafety.ParseReportLines | aoc_2024/src/bin/day2.rs:26-34 | the data parses exactly when every line does, report k being line k parsed |
| ReportSafety.CollectReports | aoc_2024/src/bin/day2.rs:26-34 | collecting parsed lines succeeds exactly when every line parses, report k being line k parsed |
| ReportSafety.ParseReportData | aoc_2024/src/bin/day2.rs:26-34 | the text split at every line feed, each piece parsed as a report (no contract of its own; see ReportSafety.ParseReportLines and ReportSafety.TrailingLineFeedRejected) |
| ReportSafety.EmptyLineRejected | aoc_2024/src/bin/day2.rs:29-31 | an empty line is one empty piece, which is not a number, so the parse fails |
| ReportSafety.TrailingLineFeedRejected | aoc_2024/src/bin/day2.rs:26-34 | any text ending in a line feed fails to parse |
| ReportSafety.LevelTextsParse | aoc_2024/src/bin/day2.rs:30-32 | the written levels of a report are space-free tokens, and they parse back to the report |
| ReportSafety.ReportLineParses | aoc_2024/src/bin/day2.rs:29-32 | a report written as an indented line of space-separated levels parses back to that report |
| ReportSafety.ReportDataRoundTrip | aoc_2024/src/bin/day2.rs:26-34 | reports written one per line, each line with any indentation of spaces, parse back to those reports |
| ReportSafety.SampleReportData | aoc_2024/src/bin/day2.rs:93-114 | the test text, its first line unindented and the other five indented by eight spaces, parses to the six expected reports |
| ReportSafety.SampleSafety | aoc_2024/src/bin/day2.rs:80-90 | [7,6,4,2,1] and [1,3,5,7] are safe, [1,2,7,8] is not |
| ReportSafety.SampleSafeCount | aoc_2024/src/bin/day2.rs:116-129 | the six test reports hold 2 safe ones |
| ReportSafety.SampleUndampenableRising | aoc_2024/src/bin/day2.rs:131-144 | no single deletion makes [1,2,7,8] safe |
| ReportSafety.SampleUndampenableFalling | aoc_2024/src/bin/day2.rs:131-144 | no single deletion makes [9,7,6,2,1] safe |
| ReportSafety.SampleDampenedCount | aoc_2024/src/bin/day2.rs:131-144 | the six test reports hold 4 dampener-safe ones |
| MulInstructions.FactorBound | aoc_2024/src/bin/day3.rs:6 | a factor of 1 to 3 digits is at most 999 |
| MulInstructions.DigitRun | aoc_2024/src/bin/day3.rs:6 | the run found is digits only and is followed by a non-digit or the end |
| MulInstructions.MatchPrefix | aoc_2024/src/bin/day3.rs:6 | a match has two factors of 1 to 3 digits each |
| MulInstructions.MatchSound | aoc_2024/src/bin/day3.rs:6 | a match is a prefix of the text spelling `mul(` a `,` b `)` |
| MulInstructions.MatchComplete | aoc_2024/src/bin/day3.rs:6 | every prefix spelling `mul(` a `,` b `)` with 1-3 digit factors is found, with those factors |
| MulInstructions.NoMatchInside | aoc_2024/src/bin/day3.rs:51 | no match starts inside another, so the matches do not overlap |
| MulInstructions.Multiply | aoc_2024/src/bin/day3.rs:49-61 | the loop over the matches returns the sum of their products |
| MulInstructions.NoMulZero | aoc_2024/src/bin/day3.rs:49-61 | a text without `mul(` gives 0 |
| MulInstructions.MulSumConcat | aoc_2024/src/bin/day3.rs:27-28 | splitting the text before a 'd' splits the sum, since no match contains a 'd' |
| MulInstructions.TakeInstruction | aoc_2024/src/bin/day3.rs:51-58 | a leading instruction adds its product to the sum of the rest |
| MulInstructions.SkipPlain | aoc_2024/src/bin/day3.rs:51 | text without an 'm' in front adds nothing |
| MulInstructions.SkipBroken | aoc_2024/src/bin/day3.rs:51 | where no match starts, the scan moves on by one character |
| MulInstructions.DoAfterDont | aoc_2024/src/bin/day3.rs:31-36 | after a `don't()` the next `do()` is never at index 0, so each iteration shortens the text |
| MulInstructions.ConditionalMultiply | aoc_2024/src/bin/day3.rs:22-47 | the loop terminates and returns the sum over the enabled text |
| MulInstructions.NoDontCountsAll | aoc_2024/src/bin/day3.rs:25-44 | with no `don't()` the conditional sum is the full sum |
| MulInstructions.ConditionalAtMostAll | aoc_2024/src/bin/day3.rs:22-47 | the conditional sum never exceeds the full sum |
| MulInstructions.DisabledSpanIgnored | aoc_2024/src/bin/day3.rs:27-36 | text from a `don't()` up to the next `do()` contributes nothing |
| MulInstructions.TrailingDisabledIgnored | aoc_2024/src/bin/day3.rs:37-40 | after a `don't()` with no later `do()` the rest is ignored |
| MulInstructions.FindAtJoin | aoc_2024/src/bin/day3.rs:25 | a keyword absent from a and present at the start of b is found first at the junction |
| MulInstructions.SampleConditionalFirst | aoc_2024/src/bin/day3.rs:69-70 | the first test string gives 48 |
| MulInstructions.SampleConditionalSecond | aoc_2024/src/bin/day3.rs:72-73 | the second test string gives 44 |
| WordSearch.FromStr | aoc_2024/src/bin/day4.rs:82-88 | one row per piece between line feeds, none containing a line feed, and joining the rows gives the text back |
| WordSearch.FromStrJoin | aoc_2024/src/bin/day4.rs:82-88 | rows joined by line feeds parse back to the same rows |
| WordSearch.CountFor | aoc_2024/src/bin/day4.rs:47-76 | the result is 0 or 1 |
| WordSearch.CountForMeans | aoc_2024/src/bin/day4.rs:56-75 | the result is 1 exactly when the rest of the needle is spelled from the cell along the direction, every cell in bounds |
| WordSearch.SpelledStep | aoc_2024/src/bin/day4.rs:56-69 | a word is spelled from a cell exactly when its first letter is there and the rest is spelled from the next cell |
| WordSearch.NoHitsOffNeedle | aoc_2024/src/bin/day4.rs:31-33 | a cell unlike the needle's first letter starts no occurrence, so skipping it loses nothing |
| WordSearch.CellAtMostEight | aoc_2024/src/bin/day4.rs:34-41 | a cell starts at most 8 occurrences |
| WordSearch.XmasTotalBound | aoc_2024/src/bin/day4.rs:27-45 | the count is at most 8 times the number of cells |
| WordSearch.FindXmasCount | aoc_2024/src/bin/day4.rs:27-45 | the loops return the number of (cell, direction other than (0, 0)) pairs along which the needle is spelled |
| WordSearch.CountLine | aoc_2024/src/bin/day4.rs:30-42 | the inner loop returns the occurrences starting in one row |
| WordSearch.CountAround | aoc_2024/src/bin/day4.rs:34-41 | the direction loops return the occurrences starting at one cell |
| WordSearch.CountDirections | aoc_2024/src/bin/day4.rs:35-40 | the innermost loop returns the occurrences for one row offset, skipping (0, 0) |
| WordSearch.FindXMasCount | aoc_2024/src/bin/day4.rs:23-25 | always 0 |
| WordSearch.CountForAsWritten | aoc_2024/src/bin/day4.rs:56-75 | count_for on any grid, bounds taken from row 0 as written; a result it completes is 0 or 1 |
| WordSearch.CountForAsWrittenRectangular | aoc_2024/src/bin/day4.rs:56-75 | on a rectangular grid the code as written never indexes out of bounds and agrees with CountFor |
| WordSearch.TrailingLineFeedPanics | aoc_2024/src/bin/day4.rs:82-88 | "X\nM\nA\n" parses to a ragged grid with an empty last row, on which count_for reads past the end of that row |
| WordSearch.GridFromLines | aoc_2024/src/bin/day4.rs:82-88 | reading the rows with `lines()` yields rows without line feeds |
| WordSearch.GridFromLinesTrailingLineFeed | aoc_2024/src/bin/day4.rs:82-88 | with `lines()`, a trailing line feed adds no row |
| WordSearch.TrailingLineFeedWithLines | aoc_2024/src/bin/day4.rs:82-88 | read with `lines()`, "X\nM\nA\n" is rectangular and count_for completes |
| PrintQueue.AnyIn | aoc_2024/src/bin/day5.rs:67-71 | true exactly when some earlier page is in the set |
| PrintQueue.IsPageUpdateValid | aoc_2024/src/bin/day5.rs:60-77 | true exactly when no page is preceded by a page that must come after it |
| PrintQueue.ShortUpdateValid | aoc_2024/src/bin/day5.rs:65-76 | updates of at most one page are valid |
| PrintQueue.UnruledPagesValid | aoc_2024/src/bin/day5.rs:61-66 | pages without a rule impose nothing |
| PrintQueue.ValidRespectsRules | aoc_2024/src/bin/day5.rs:60-77 | valid exactly when every rule between two positions of the update is respected |
| PrintQueue.MoreRulesFewerValid | aoc_2024/src/bin/day5.rs:65-75 | adding rules can only turn valid updates invalid |
| PrintQueue.MiddlePage | aoc_2024/src/bin/day5.rs:56 | the page at index len/2: the centre of an odd-length update, the later of the two middle pages of an even-length one (no contract of its own; its requires is the non-empty update) |
| PrintQueue.SumOfValidMiddlePages | aoc_2024/src/bin/day5.rs:52-58 | the sum of the middle pages of the valid updates (no contract of its own; the next row bounds it) |
| PrintQueue.SumOfValidMiddlePagesBound | aoc_2024/src/bin/day5.rs:52-58 | only valid updates count, each by at most 255; the sum is 0 exactly when every valid update has middle page 0 |
| PrintQueue.RuleSectionLength | aoc_2024/src/bin/day5.rs:23 | the rule section is the non-empty lines before the first empty one |
| PrintQueue.ParseRule | aoc_2024/src/bin/day5.rs:25 | a rule line split at a vertical bar into exactly two `u8` numbers (no contract of its own; the next two rows state both directions) |
| PrintQueue.ParseRuleSound | aoc_2024/src/bin/day5.rs:25 | a parsed rule line is two `u8` numbers around a vertical bar |
| PrintQueue.ParseRuleComplete | aoc_2024/src/bin/day5.rs:25 | every rule, written as two decimal numbers around a vertical bar, parses back to itself |
| PrintQueue.ParseUpdate | aoc_2024/src/bin/day5.rs:30-33 | an update line parses exactly when every comma-separated part is a `u8`, page k being part k |
| PrintQueue.ParseUpdateComplete | aoc_2024/src/bin/day5.rs:30-33 | every non-empty update, written as decimal pages separated by commas, parses back to itself |
| PrintQueue.EmptyUpdateLineFails | aoc_2024/src/bin/day5.rs:30-33 | an empty update line does not parse |
| PrintQueue.BuildRulesMeans | aoc_2024/src/bin/day5.rs:24-28 | page p2 must follow page p1 in the map exactly when the rule p1, p2 was read |
| PrintQueue.RuleLinesMeans | aoc_2024/src/bin/day5.rs:21-28 | p2 must follow p1 exactly when one of the rule lines reads p1, a vertical bar, p2 |
| PrintQueue.FromStr | aoc_2024/src/bin/day5.rs:19-41 | succeeds exactly when every rule line and every update line parses; it then holds the map of the rules and the updates in order |
| PrintQueue.FromStrRoundTrip | aoc_2024/src/bin/day5.rs:19-41 | on any input written out as rule lines, an empty line and update lines, `from_str` reads back exactly the rules, in order, and the updates |
| PrintQueue.RuleSectionOfInput | aoc_2024/src/bin/day5.rs:21-23 | in a written input, `take_while` stops at the empty line after the rules, and the updates are the lines after it |
| PrintQueue.ParseAllMeans | aoc_2024/src/bin/day5.rs:29-36 | parsing the first n lines succeeds exactly when each line parses, element k then being line k parsed |
| PrintQueue.RulesUpToMeans | aoc_2024/src/bin/day5.rs:21-28 | the rule lines parse exactly when each of them does, rule k being line k parsed |
| PrintQueue.UpdatesUpToMeans | aoc_2024/src/bin/day5.rs:29-36 | the update lines parse exactly when each of them does, update k being line k parsed |
| PrintQueue.FoldRules | aoc_2024/src/bin/day5.rs:21-28 | the fold over the rule section returns the map of the parsed rules, or fails at the first bad line |
| PrintQueue.CollectUpdates | aoc_2024/src/bin/day5.rs:29-36 | the fold returns the parsed updates in order, or fails at the first bad line |
| PrintQueue.FoldLine | aoc_2024/src/bin/day5.rs:24-27 | one fold step adds rule line i to the map of the lines before it, or the whole rule section fails |
| PrintQueue.CollectLine | aoc_2024/src/bin/day5.rs:30-35 | one fold step pushes update line k after the updates before it, or the whole update section fails |
| PrintQueue.ParsedUpdatesNonEmpty | aoc_2024/src/bin/day5.rs:30-33 | every parsed update has a page, so its middle page exists |
| PrintQueue.TrailingLineFeedFails | aoc_2024/src/bin/day5.rs:29-33 | a text with an update section that ends in a line feed fails |
| PrintQueue.SampleSum | aoc_2024/src/bin/day5.rs:84-117 | the test rules and updates give 143 |
| PrintQueue.SampleFromStr | aoc_2024/src/bin/day5.rs:113-120 | `from_str` on the test input, then the sum of the valid middle pages, gives 143 |
| Text.SplitJoin | aoc_2024/src/bin/day5.rs:20 | joining the pieces of a split with the separator gives the text back |
| Text.JoinSplit | aoc_2024/src/bin/day4.rs:84 | splitting pieces joined by a separator they do not contain gives the pieces back |
| Text.SplitPieces | aoc_2024/src/bin/day2.rs:27 | no piece holds the separator, and there is one more piece than separators |
| Text.SplitTrailingSeparator | aoc_2024/src/bin/day2.rs:27 | a trailing separator adds one empty piece |
| Text.Lines | aoc_2024/src/bin/day6.rs:57 | no line holds a line feed, and there are as many lines as pieces between line feeds or one fewer; Text.LastPieceEmpty with Text.LinesMeans say that it is one fewer exactly when the text is empty or ends in a line feed, and what each line holds |
| Text.LastPieceEmpty | aoc_2024/src/bin/day6.rs:57 | the last piece between line feeds is empty exactly when the text is empty or ends with a line feed |
| Text.LinesMeans | aoc_2024/src/bin/day6.rs:57 | `lines()` gives one line per line feed plus one for an unterminated last line; a line ended by a line feed is the text before it less one trailing carriage return, and an unterminated last line is kept as it is |
| Text.TrimKeepsMiddle | aoc_2024/src/bin/day2.rs:29 | trimming removes only whitespace, from both ends, and leaves no whitespace at either end |
| Text.TrimPadded | aoc_2024/src/bin/day2.rs:29 | trimming leading whitespace off a part that neither starts nor ends with whitespace gives that part |
| Text.SplitWhitespace | aoc_2024/src/bin/day1.rs:53 | the tokens are non-empty and hold no whitespace |
| Text.SplitWhitespaceSkip | aoc_2024/src/bin/day1.rs:53 | leading whitespace yields no token |
| Text.SplitWhitespaceToken | aoc_2024/src/bin/day1.rs:53 | a run of non-whitespace followed by whitespace or by the end of the text is the next token |
| Text.SplitWhitespaceInterleave | aoc_2024/src/bin/day1.rs:53 | on tokens separated by whitespace (any amount at either end, at least one character between two tokens), `split_whitespace` gives back exactly those tokens |
| Text.SplitWhitespaceCovers | aoc_2024/src/bin/day1.rs:53 | every text is its tokens with whitespace gaps around them, so nothing but whitespace is dropped |
| Text.DigitParses | aoc_2024/src/bin/day1.rs:56-57 | a single ASCII digit parses to its value in any integer type that holds it |
| Text.FindFrom | aoc_2024/src/bin/day3.rs:25 | the index found holds the pattern, and no earlier index does |
| Text.FindIsFirst | aoc_2024/src/bin/day3.rs:33 | the first occurrence is the one found |
| Text.ParseInteger | aoc_2024/src/bin/day5.rs:32 | a parsed number lies within the type's range and the text starts with a digit or an accepted sign; Text.ParseIntegerSound and Text.ParseIntegerComplete give its value and which texts fail |
| Text.ParseIntegerSound | aoc_2024/src/bin/day2.rs:31 | a successful parse read an accepted sign (none, '+', or '-' for a signed type) followed by at least one digit, and its value is the signed value of those digits |
| Text.ParseIntegerComplete | aoc_2024/src/bin/day2.rs:31 | every accepted sign followed by digits, leading zeros included, parses to its signed value exactly when that value is in range, and fails otherwise |
| Text.ParseOtherSpellings | aoc_2024/src/bin/day5.rs:32 | "+5" and "007" read as `u8` 5 and 7, and "256" does not read |
| Text.ParsePrinted | aoc_2024/src/bin/day2.rs:31 | the decimal spelling of any value in range parses back to it |

## Left out

- Every `main`, its file reading and printing, and `common/src/lib.rs` (wall-clock timing): plumbing with no logic.
- The regex engine of day 3: the scanner matches ASCII digits only, so the regex's Unicode `\d` and the resulting `parse::<usize>` error are not modelled.
- Error messages of `anyhow` and `bail!`: every error is one failure value.
- Machine-integer overflow: `usize` and `u64` sums and products and the `i32` subtraction of day 2 are unbounded integers. Range checks while parsing (`u8`, `i32`, `usize`) are kept.
- The hash sets and maps are Dafny sets and maps. The order in which the obstruction search visits its candidates is not modelled; the count does not depend on it.
- LocationLists.FromLocationData: the in-place `Vec::sort` is modelled on values, as an insertion sort proved to give the unique sorted permutation. The sorting algorithm and its update in place are not captured.
- GuardPatrol.LabInput.PatrolPositionPath: requires a walk that leaves the grid, because the source loops forever otherwise.
- GuardPatrol.LabInput.IsGuardStuckInLoop, GuardPatrol.ObstructionPositionCount: require a rectangular grid with the guard inside. The source takes the column bound from row 0 alone, so on a ragged grid a step either indexes past the end of a shorter row (a panic) or treats the cells beyond row 0's width as outside the grid and ends the walk there. Neither behaviour is modelled.
- WordSearch.CountFor: requires a rectangular grid; what the code does on a ragged grid is WordSearch.CountForAsWritten.
- WordSearch.FindXmasCount: cells are characters, whereas the source reads bytes, so a multi-byte character is one cell here and several there.
- The test grids of day 6 (41 visited cells and 6 loop-inducing cells, 13 and 1) and of day 4 (18 occurrences) are not replayed. Walking a 10x10 grid step by step inside the verifier is too large.
- PrintQueue.SampleInput: the `INPUT` text of the day 5 test is built from the example's rules and updates written in the input layout (one "p1|p2" line per rule, an empty line, one comma-separated line per update), not spelled as one character literal. PrintQueue.FromStrRoundTrip is what reads it back.
- ReportSafety.SampleReportText: the text of the day 2 parsing test is built from the six test reports written in the input layout (levels separated by single spaces, the lines after the first indented by eight spaces, no final line feed), not spelled as one character literal. ReportSafety.ReportDataRoundTrip is what reads it back.
- The `sscanf!` format of day 5 is read as a split on the vertical bar into two `u8` numbers. Its own grammar, for example how it treats spaces or signs, is not modelled.
- PrintQueue.SumOfValidMiddlePages: states the sum over the valid updates as a function. Its `u64` accumulator is unbounded.

## Findings

| source | as written | input that shows it | evidently intended | confidence | as-written member | corrected member |
|---|---|---|---|---|---|---|
| aoc_2024/src/bin/day1.rs:100-118 | the loops index `left_values[left_ptr]` and `right_values[right_ptr]` after the index has reached the length, at line 106 and in the unguarded counting loop at 115-118 | left = [1], right = [1] | stop when either index reaches the end, giving the same score as `similarity_score` | not executed; high | LocationLists.OptimizedAsWrittenFailsOnSinglePair | LocationLists.SimilarityScoreOptimized |
| aoc_2024/src/bin/day4.rs:82-88 | `split('\n')` turns a trailing line feed into an empty last row, while `count_for` bounds columns by row 0, so a downward match reaching that row indexes past its end | the text "X\nM\nA\n" with needle XMAS, from (0, 0) going down | rows read with `lines()`, which adds no row for a trailing line feed | not executed; medium, it depends on the input file ending in a line feed | WordSearch.TrailingLineFeedPanics | WordSearch.GridFromLinesTrailingLineFeed |
