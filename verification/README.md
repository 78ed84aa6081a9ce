# Advent of Code 2022, days 1–8, in Dafny

This project models eight small Rust programs, one per puzzle day, and proves
what each one computes. Each program reads a puzzle input, folds it into one
answer and prints it. Every model keeps the program's pipeline: how it splits
the text, how it parses each piece, how it computes the answer, and where it
panics. Each day is one module:

- `Day1`: calorie groups separated by blank lines; the total of the three largest groups.
- `Day2`: a rock-paper-scissors strategy guide; the total score of the rounds.
- `Day3`: rucksacks whose two halves share an item; the sum of the shared items' priorities.
- `Day4`: pairs of section ranges; how many pairs have one range containing the other.
- `Day5`: a drawing of crate stacks and `move N from S to D` lines; the top crate of each stack after the moves.
- `Day6`: the first window of four distinct bytes in a stream.
- `Day7`: a transcript of `$ cd` / `$ ls`, walked to get directory sizes. Part 1 sums the small ones; part 2 finds the smallest one to delete.
- `Day8` and `Day8Visibility`: a grid of tree heights swept from four sides, and what the count of flagged trees means.

Three shared modules hold the pieces of Rust's standard library the programs use:

- `Results`: `Result`/`Option`, and `collect::<Result<Vec<_>,_>>()`.
- `Text`: `split`, `lines`, `split_whitespace`, `split_once`, `find` and `parse::<uN>`.
- `Seqs`: sums, `sort`, `reverse`, and counting flags.

A panic (`unwrap`, `expect`, `unreachable!`, an out-of-range index, an
unsigned underflow) is usually modelled as an `Err` result of the operation
where it happens. A few operations are instead stated only for the inputs on
which they cannot panic, through a `requires`: `Day5.ApplyMove`, `Day7.Need`
and `Day7.Part2`. "Left out" lists them. Most operations have a partner, and
a lemma or contract connects the two. The partner is one of:

- an inverse, such as render and then parse;
- a reference definition, such as the sum of the shared items' priorities,
  the set of pairs in which one range contains the other, visibility from
  outside the grid, or the sizes of a directory tree;
- an invariant the operation keeps, such as crates being conserved.

## Model

| member | source | states |
|---|---|---|
| Day1.ParseAll | day-1/src/main.rs:7-9 | succeeds exactly when every line of a group is a numeral; then holds each line's parsed value, in order |
| Day1.GroupTotals | day-1/src/main.rs:4-12 | one total per group, equal to the sum of that group's parsed lines; fails exactly when some group has a line that does not parse |
| Day1.Solve | day-1/src/main.rs:4-16 | fails exactly when the group totals fail; otherwise the answer is the sum of the three largest totals |
| Day1.RankedIsDescendingPermutation | day-1/src/main.rs:14-15 | after `sort` and `reverse` the totals are in descending order and are a permutation of the group totals |
| Day1.TopThreeAreLargest | day-1/src/main.rs:14-16 | each of the three summed totals is at least every total that is left out |
| Day1.TopThree | day-1/src/main.rs:14-16 | the sum of the first three totals is at least every single total and at most the sum of all totals; with three totals or fewer it is their sum |
| Day2.SelectionScore | day-2/src/main.rs:13-19 | Rock, Paper and Scissors score 1, 2 and 3: one more than their place in that order |
| Day2.ParseSelection | day-2/src/main.rs:25-32 | accepts exactly the tokens `A`, `B` and `C` |
| Day2.ParseSelectionCode | day-2/src/main.rs:25-32 | every move's letter is read back as that move, and no other token is |
| Day2.ParseWinner | day-2/src/main.rs:44-51 | accepts exactly the tokens `X`, `Y` and `Z` |
| Day2.ParseWinnerCode | day-2/src/main.rs:44-51 | every outcome's letter is read back as that outcome, and no other token is |
| Day2.Outcome | day-2/src/main.rs:56-64 | we win exactly when our move beats theirs (it comes one step after theirs in Rock, Paper, Scissors, cyclically); they win exactly when their move beats ours; a draw exactly when the moves are equal |
| Day2.OutcomeAntisymmetric | day-2/src/main.rs:56-64 | swapping the two players turns a win into a loss and keeps a draw |
| Day2.OurMove | day-2/src/main.rs:66-75 | the move `our_move` picks gives the requested outcome against their move, and it is the only move that does |
| Day2.WinnerScore | day-2/src/main.rs:78-84 | a win scores 6, a draw 3 and a loss 0 |
| Day2.RoundScore | day-2/src/main.rs:94 | a round scores between 1 and 9: the outcome points of the game actually played plus the points of the move we play |
| Day2.Pairs | day-2/src/main.rs:92 | `tuples()` pairs token `2i` with token `2i+1`, and drops a last token that has no partner |
| Day2.ParseRounds | day-2/src/main.rs:93 | succeeds exactly when both tokens of every pair parse; the rounds come out in order |
| Day2.TotalScoreBounds | day-2/src/main.rs:90-95 | the total lies between one and nine points per round |
| Day2.Solve | day-2/src/main.rs:87-95 | fails exactly when some token that has a partner fails to parse; otherwise the answer is the sum of the round scores |
| Day2.ParseRendered | day-2/src/main.rs:90-93 | the tokens written for a list of rounds are read back as those rounds |
| Day2.SolveRender | day-2/src/main.rs:87-95 | end to end: a guide written with single spaces scores the rounds it was written from |
| Day3.Compartments | day-3/src/main.rs:8 | the first half has `len / 2` items, the second has the rest, and together they are the line |
| Day3.SharedItem | day-3/src/main.rs:11-15 | the item returned is in both halves; there is none exactly when the halves share nothing |
| Day3.SharedItemUnique | day-3/src/main.rs:11-15 | when the halves share exactly one item, that item is the one found |
| Day3.Priority | day-3/src/main.rs:16-20 | defined exactly on ASCII letters, with values in 1..52; lower-case letters get exactly 1..26 |
| Day3.PriorityRoundTrip | day-3/src/main.rs:16-20 | the priority is a bijection between the letters and 1..52 |
| Day3.PriorityInjective | day-3/src/main.rs:16-20 | different letters have different priorities |
| Day3.RucksackPriority | day-3/src/main.rs:8-20 | succeeds exactly when the shared item found is a letter; the value is the priority of an item found in both halves |
| Day3.TotalPriority | day-3/src/main.rs:6-21 | succeeds exactly when every rucksack has a priority; the value is the sum of those priorities, between 1 and 52 per rucksack |
| Day3.Solve | day-3/src/main.rs:6-21 | succeeds exactly when every whitespace-separated rucksack has a priority; the answer is the sum of those priorities |
| Day3.Example | day-3/src/main.rs:8-20 | the halves of `vJrwpWtwJgWrhcsFMMfFFhFp` share `p`, whose priority is 16 |
| Day4.ContainsReflexive | day-4/src/main.rs:8-10 | every range contains itself |
| Day4.ContainsTransitive | day-4/src/main.rs:8-10 | containment is transitive |
| Day4.ContainsIsInclusion | day-4/src/main.rs:8-10 | for a non-empty range, `contains_range` holds exactly when every section of the inner range is a section of the outer one |
| Day4.ParseRange | day-4/src/main.rs:13-21 | succeeds exactly when there is a `-` with a numeral on both sides; the start is the first number and the end is the second plus one (half-open) |
| Day4.ParseRangeText | day-4/src/main.rs:13-21 | the text `a-b` is read as the half-open range `a..b+1` |
| Day4.ParsePair | day-4/src/main.rs:28-29 | succeeds exactly when there is a comma with a valid range on both sides, and yields those two ranges |
| Day4.ParsePairs | day-4/src/main.rs:26-29 | succeeds exactly when every line parses; the pairs come out in order |
| Day4.CountContaining | day-4/src/main.rs:30-34 | the count is at most the number of pairs; it equals that number exactly when every pair is counted, and is 0 exactly when none is |
| Day4.CountIsContaining | day-4/src/main.rs:30-34 | the count is the number of positions whose pair has one range containing the other |
| Day4.CountConcat | day-4/src/main.rs:30-34 | counting a list in two parts adds the counts of the parts |
| Day4.CountIgnoresOrderWithinPairs | day-4/src/main.rs:30 | swapping the two elves of any pair does not change the count |
| Day4.Solve | day-4/src/main.rs:23-35 | fails exactly when some whitespace-separated entry fails to parse; otherwise the answer is the number of parsed pairs in which one range contains the other, at most the number of entries |
| Day4.Examples | day-4/src/main.rs:30 | `2-4,6-8` and `5-7,7-9` are not counted; `2-8,3-7` is |
| Day5.Apply | day-5/src/main.rs:10-14 | applying a list of moves keeps the number of stacks and the multiset of all crates |
| Day5.ApplyMove | day-5/src/main.rs:16-20 | other stacks are unchanged; the source loses its top `number` crates; the destination gains them in reverse order, also when source and destination are the same stack |
| Day5.MoveConservesCrates | day-5/src/main.rs:16-20 | a move keeps the multiset of all crates |
| Day5.ApplyConcat | day-5/src/main.rs:10-14 | applying `a + b` means applying `a` and then `b` |
| Day5.MoveIsRepeatedSingleMoves | day-5/src/main.rs:16-20 | moving `n` crates at once gives the same result as `n` one-crate moves |
| Day5.MoveNone | day-5/src/main.rs:16-20 | moving zero crates leaves every stack as it was |
| Day5.TopAfterMove | day-5/src/main.rs:16-20 | after a move, the destination's top crate is the deepest of the crates taken |
| Day5.Summary | day-5/src/main.rs:22-24 | one character per stack: that stack's top crate |
| Day5.Cells | day-5/src/main.rs:36-40 | one entry per four-character chunk of a row; a chunk that starts `[x]` names crate `x` |
| Day5.PushFrom | day-5/src/main.rs:43-47 | succeeds exactly when no crate lies beyond the last stack; each stack gains the crate of its own chunk |
| Day5.PushRow | day-5/src/main.rs:42-48 | one step of the fold: each stack gains the crate the row names for it, or the step fails on a crate beyond the last stack |
| Day5.PushRows | day-5/src/main.rs:42-49 | succeeds exactly when every row fits; stack `k` then holds the crates the rows name for it, bottom row first |
| Day5.ParseState | day-5/src/main.rs:30-52 | an empty drawing is an error; the number of stacks is the number of labels on the last line |
| Day5.CellsOfRow | day-5/src/main.rs:36-40 | reading a drawn row gives, for every stack, the crate at that height or nothing |
| Day5.ColumnOfLevels | day-5/src/main.rs:42-49 | folding the bottom `n` levels of the stacks rebuilds each stack's bottom `n` crates |
| Day5.ParseDrawing | day-5/src/main.rs:30-52 | a drawn state is read back as that state |
| Day5.DigitRunIsMaximal | day-5/src/main.rs:66 | the run of ASCII digits at an offset is maximal: all digits, followed by a non-digit or the end |
| Day5.NumberAfter | day-5/src/main.rs:66 | a literal followed by a `\d+` run ends strictly after the literal and inside the line |
| Day5.NumberAfterSpec | day-5/src/main.rs:66 | a literal followed by `\d+` is found exactly when the literal occurs at the offset and a digit follows it; the match then ends where the digit run ends |
| Day5.MatchAt | day-5/src/main.rs:66 | a match of `move (\d+) from (\d+) to (\d+)` captures three non-empty runs of digits |
| Day5.MatchAtSound | day-5/src/main.rs:66 | a match at an offset is `move `, digits, ` from `, digits, ` to `, digits, with each run of digits maximal, and the captures are those runs |
| Day5.MatchAtComplete | day-5/src/main.rs:66 | every such text is found at its offset, with those captures |
| Day5.MatchText | day-5/src/main.rs:66 | the line `move a from b to c`, followed by nothing or by a non-digit, matches at its start and captures `a`, `b` and `c` |
| Day5.Search | day-5/src/main.rs:68 | finds the leftmost offset where the pattern matches; there is none exactly when it matches nowhere |
| Day5.MoveOf | day-5/src/main.rs:69-81 | succeeds exactly when both stack numbers are non-zero, so the `- 1` does not underflow |
| Day5.ParseMove | day-5/src/main.rs:64-82 | a line with no match is an error; otherwise the move comes from the leftmost match |
| Day5.ParseMoveText | day-5/src/main.rs:64-82 | the text of a move is read back as that move, whatever non-digit text follows it |
| Day5.ParseMoves | day-5/src/main.rs:90-93 | succeeds exactly when every line parses; the moves come out in order |
| Day5.Sections | day-5/src/main.rs:88 | `split_once("\n\n")`: none exactly when the input has no blank line; otherwise the input is the text before the first blank line, the blank line, and the rest |
| Day5.SplitInput | day-5/src/main.rs:88 | an input made of a drawing without blank lines, a blank line and move lines is cut at that blank line |
| Day5.Solve | day-5/src/main.rs:85-100 | an input with no blank line is an error; otherwise the answer exists exactly when the drawing and every move line parse, every move fits the stacks, and no stack ends empty; it is then the top crate of each stack after the moves |
| Day5.SolveParts | day-5/src/main.rs:85-100 | when the two parts parse, the moves fit and no stack ends empty, the answer is the top crates of the stacks the moves leave |
| Day5.SolveDrawing | day-5/src/main.rs:85-100 | end to end: a drawing, a blank line and some moves give the top crates of the stacks the moves leave |
| Day5.Example | day-5/src/main.rs:10-24 | the puzzle's three stacks and four moves leave `CMZ` on top |
| Day6.UniqueCount | day-6/src/main.rs:11 | `unique().count()` is at most the window's length, and equal to it exactly when no value repeats |
| Day6.DistinctElements | day-6/src/main.rs:11 | the set of a window's values has as many elements as the window exactly when no value repeats |
| Day6.FirstMarkerFrom | day-6/src/main.rs:9-13 | the first window from a given offset whose values are all distinct, with no such window before it; an error exactly when there is none |
| Day6.FirstMarker | day-6/src/main.rs:7-16 | the answer ends the first window of four distinct values, and no earlier window qualifies; an error exactly when no window does |
| Day6.Example | day-6/src/main.rs:7-16 | `bvwbjplbgvbhsrlpgdmjqwftvncz` gives 5 |
| Day7.TokenizeEach | day-7/src/main.rs:19 | line `k` becomes the words of the `k`-th line, split on single spaces |
| Day7.Listing | day-7/src/main.rs:28-36 | a listing only adds to the size, and stops at a command line or at the end of the input; it fails only on a malformed line |
| Day7.ListingLine | day-7/src/main.rs:29-35 | one line of a listing: as for `Listing`, starting at a line that exists |
| Day7.Run | day-7/src/main.rs:17-43 | the loop moves the cursor forward and never makes the size smaller |
| Day7.Step | day-7/src/main.rs:18-39 | every command consumes at least one line |
| Day7.RunRecords | day-7/src/main.rs:13-44 | a frame only appends to the recorded sizes; its own size comes last and is at least every size it added |
| Day7.Visit | day-7/src/main.rs:13-44 | `visit_directory` records its own size last, and that size bounds every size it recorded |
| Day7.Walk | day-7/src/main.rs:4-7 | the walk from the first line is a finished frame |
| Day7.Evaluate | day-7/src/main.rs:3-11 | succeeds exactly when the walk does; the sizes are a sorted permutation of those recorded, ending with the outermost frame's size |
| Day7.LastOfSortedIsMax | day-7/src/main.rs:9-10 | sorting puts the largest recorded size last |
| Day7.ListingOfEntries | day-7/src/main.rs:28-36 | the `dir` entries and file entries of a listing, mixed in any order, add up the file sizes, and the listing ends after them |
| Day7.ListingMixed | day-7/src/main.rs:28-36 | a listing that mixes `dir` and file entries in any order adds exactly the files' sizes and moves past every entry |
| Day7.InterleaveElements | day-7/src/main.rs:28-36 | a listing order mixes the `dir` and file entries without losing or adding any |
| Day7.TokenizeInterleave | day-7/src/main.rs:19 | splitting the lines of a mixed listing into words gives the same mix of the split entries |
| Day7.RunTranscript | day-7/src/main.rs:13-44 | on the transcript of a directory tree, the loop returns the directory's total size and records every directory's size, children before parents |
| Day7.VisitTranscript | day-7/src/main.rs:13-44 | `visit_directory` on the transcript of a tree returns the tree's total size and the sizes of all its directories |
| Day7.RunSubTranscripts | day-7/src/main.rs:24-26 | the subdirectory explorations add their sizes to the parent and record theirs, in order |
| Day7.EnterSub | day-7/src/main.rs:20-26 | `$ cd <name>` visits the subdirectory, and the parent carries on after the matching `$ cd ..` |
| Day7.RecordedCount | day-7/src/main.rs:21-22 | every directory of the tree is recorded exactly once |
| Day7.WalkSession | day-7/src/main.rs:4-7 | on a session starting `$ cd /`, the walk records every directory and then the root's size a second time |
| Day7.EvaluateSession | day-7/src/main.rs:3-11 | `evaluate` on a session lists the size of every directory in ascending order, with the root twice |
| Day7.RunDropUps | day-7/src/main.rs:17-44 | `$ cd ..` lines at the end of the input change nothing before them: each one only closes a frame, and when they are missing the end of the input closes it with the same size and records the same sizes |
| Day7.ListingDropUps | day-7/src/main.rs:28-36 | a listing stops at the first `$ cd ..` as it stops at the end of the input, with the same total |
| Day7.WalkOfCut | day-7/src/main.rs:3-11 | cutting `$ cd ..` lines off the end of the input leaves the sizes `evaluate` lists unchanged |
| Day7.EvaluateCutSession | day-7/src/main.rs:3-11 | a session that stops inside a directory, without the `$ cd ..` lines that would lead back up, still lists the size of every directory in ascending order, with the root twice |
| Day7.LeadingBelow | day-7/src/main.rs:52 | `take_while` keeps the longest prefix of sizes below the threshold: every size kept is below it and the first size left out is not |
| Day7.TakeWhileSum | day-7/src/main.rs:50-53 | the total is the sum of that prefix |
| Day7.TakeWhileSumSorted | day-7/src/main.rs:50-53 | on ascending sizes, stopping at the first large size loses nothing: the sum is that of all sizes below the threshold |
| Day7.BelowPermutation | day-7/src/main.rs:50-53 | the total below the threshold does not depend on the order of the sizes |
| Day7.Part1 | day-7/src/main.rs:46-58 | succeeds exactly when `evaluate` does |
| Day7.Part1IsTotalBelow | day-7/src/main.rs:46-53 | part 1 is the total of every recorded directory size below 100000 |
| Day7.BinarySearch | day-7/src/main.rs:69-71 | on a sorted list: either an index that holds the value, or the insertion point, with everything before it smaller and everything from it on larger |
| Day7.Part2 | day-7/src/main.rs:61-72 | the chosen size is recorded and frees enough space, and it is the smallest recorded size that does |
| Day7.Part2Example | day-7/src/main.rs:61-72 | the puzzle's sizes give 24933642 |
| Day7.Part1Example | day-7/src/main.rs:46-53 | the puzzle's sizes give 95437 |
| Day8.TallerReversed | day-8/src/main.rs:55-58 | sweeping a reversed sequence marks the trees taller than every later tree |
| Day8.UpdateFromKeeps | day-8/src/main.rs:5-11 | the loop never clears a flag |
| Day8.UpdateFromElsewhere | day-8/src/main.rs:5-11 | the loop leaves alone every flag it does not visit, including those past the shorter of the two zipped sequences |
| Day8.UpdateFromAt | day-8/src/main.rs:5-11 | along positions without repeats, a visited flag ends up set exactly when it was set, or when its tree is above the tallest seen so far and taller than every tree before it |
| Day8.UpdateAt | day-8/src/main.rs:1-12 | one call sets the `k`-th visited flag exactly when it was set or tree `k` is strictly taller than every tree before it |
| Day8.UpdateKeeps | day-8/src/main.rs:1-12 | marks made before a call survive it |
| Day8.UpdateElsewhere | day-8/src/main.rs:1-12 | a call changes only the flags it visits |
| Day8.VisibleTreesInSequence | day-8/src/main.rs:14-19 | one flag per tree, set exactly when the tree is strictly taller than every tree before it |
| Day8.FirstMarked | day-8/src/main.rs:14-19 | the first tree of a non-empty sequence is always marked |
| Day8.MarksIncrease | day-8/src/main.rs:14-19 | read in order, the marked trees are strictly increasing in height |
| Day8.SweepExamples | day-8/src/main.rs:99-121 | the five sequences of the program's unit test give the expected flags |
| Day8.Height | day-8/src/main.rs:34 | a byte below `'0'` underflows; a digit gives its value |
| Day8.Parse | day-8/src/main.rs:28-42 | succeeds exactly when there is a line break, the first line is not empty, and no byte lies below `'0'`; the width is the first line's length, the heights are the other bytes minus `'0'`, and the height is the number of whole rows |
| Day8.ParseRender | day-8/src/main.rs:28-42 | a grid of digits written one row per line is parsed back as that grid |
| Day8.StepFits | day-8/src/main.rs:63-65 | every position `step_by` yields lies inside the slice it walks |
| Day8.RowPath | day-8/src/main.rs:47-48 | a row's positions are `row * width + k` for `k < width`, all inside the flags |
| Day8.SweepBothWaysAt | day-8/src/main.rs:50-58 | after a sweep in each direction, a flag on the path is set exactly when it was set or its tree is taller than every tree before it or every tree after it |
| Day8.SweepBothWaysElsewhere | day-8/src/main.rs:50-58 | sweeping both ways changes no flag off the path |
| Day8.CountAsWritten | day-8/src/main.rs:44-81 | as written, with the column stride equal to the height: an error exactly when the rows overrun the heights, or when `step_by(0)` is reached; the count is at most `width * height` |
| Day8.Count | day-8/src/main.rs:44-81 | with the column stride equal to the width: an error exactly when the rows overrun the heights, or when a grid without rows is sliced past column 0; the count is at most `width * height` |
| Day8.Part1 | day-8/src/main.rs:83-87 | a successful answer comes from a parsed grid and is its count |
| Day8Visibility.TallerFromLeft | day-8/src/main.rs:50-53 | the sweep of a row from the left marks exactly the trees visible from the left |
| Day8Visibility.TallerFromRight | day-8/src/main.rs:55-58 | the sweep of a row from the right marks exactly the trees visible from the right |
| Day8Visibility.SweepRowAt | day-8/src/main.rs:46-59 | after both sweeps of a row, a flag in that row is set exactly when it was set or its tree is visible from the left or the right |
| Day8Visibility.SweepRowElsewhere | day-8/src/main.rs:46-59 | the sweeps of one row leave the other rows alone |
| Day8Visibility.RowSweepsAt | day-8/src/main.rs:46-59 | the row loop, from a given row on, sets a flag exactly when it was set or its tree lies in one of those rows and is visible from the left or the right |
| Day8Visibility.ColumnPath | day-8/src/main.rs:60-77 | stepping by the width from column `col` visits that column's cells top to bottom, for the heights and the flags alike |
| Day8Visibility.TallerFromTop | day-8/src/main.rs:63-66 | the sweep of a column from the top marks exactly the trees visible from the top |
| Day8Visibility.TallerFromBottom | day-8/src/main.rs:68-77 | the sweep of a column from the bottom marks exactly the trees visible from the bottom |
| Day8Visibility.SweepColumnAt | day-8/src/main.rs:60-77 | after both sweeps of a column, a flag in that column is set exactly when it was set or its tree is visible from the top or the bottom |
| Day8Visibility.SweepColumnElsewhere | day-8/src/main.rs:60-77 | the sweeps of one column leave the other columns alone |
| Day8Visibility.ColumnSweepsAt | day-8/src/main.rs:60-78 | the column loop, from a given column on, sets a flag exactly when it was set or its tree lies in one of those columns and is visible from the top or the bottom |
| Day8Visibility.FlagsAt | day-8/src/main.rs:44-78 | a tree's final flag is set exactly when the tree is visible from outside the grid |
| Day8Visibility.PerimeterCounted | day-8/src/main.rs:44-78 | every tree on the edge of the grid is flagged |
| Day8Visibility.FlagsAreVisibility | day-8/src/main.rs:44-78 | the final flags are the visibility map, cell for cell |
| Day8Visibility.CountIsVisible | day-8/src/main.rs:44-81 | the count is the number of trees visible from outside the grid |
| Day8Visibility.Part1OfGrid | day-8/src/main.rs:83-87 | on a puzzle input of digits, the answer is the number of trees visible from outside |
| Day8Visibility.AsWrittenIsVisibleOnSquare | day-8/src/main.rs:60-81 | on a square grid, the count as written is also the number of visible trees |
| Day8Visibility.HeightStrideMarksHiddenTree | day-8/src/main.rs:63-76 | on a four-wide, three-tall grid, stepping by the height flags a tree that is hidden on all four sides, and the count as written is not the number of visible trees |
| Day8Visibility.WideGridCountsEleven | day-8/src/main.rs:60-80 | on that grid the count as written is at least 11: every tree but one ends up flagged |
| Day8Visibility.WideGridShowsTen | day-8/src/main.rs:44-81 | on that grid at most 10 trees are visible from outside |
| Seqs.CountTrueMonotone | day-8/src/main.rs:80 | setting more flags never lowers the count of set flags |
| Day8Visibility.ColumnSweepsKeep | day-8/src/main.rs:60-78 | the column loop never clears a flag, whatever its stride |
| Text.Split | day-1/src/main.rs:7 | `split` gives at least one piece; no piece contains the separator, and the pieces joined by it give back the input |
| Text.SplitJoin | day-1/src/main.rs:7 | splitting separator-free pieces joined by the separator gives back those pieces |
| Text.SplitOn | day-1/src/main.rs:5 | `split("\n\n")` gives at least one piece; no piece contains the separator, and the pieces joined by it give back the input |
| Text.Lines | day-7/src/main.rs:4 | `lines` gives no line containing `\n`, no lines for empty text, and the lines joined by `\n` give back the text up to one final newline |
| Text.LinesOfJoin | day-5/src/main.rs:91 | lines without newlines, joined, are split back into the same lines, provided the last one is not empty |
| Text.LinesOfTerminated | day-5/src/main.rs:91 | a newline after the last line adds no empty line: the lines come back unchanged |
| Text.Words | day-2/src/main.rs:91 | whitespace splitting gives non-empty words without whitespace, and they are exactly the non-whitespace characters of the input, in order |
| Text.WordsOfUnwords | day-2/src/main.rs:91 | words joined by single spaces are split back into the same words |
| Text.SplitOnce | day-4/src/main.rs:14 | `None` exactly when the separator is absent; otherwise the text before it, the separator and the text after it make up the input, and the text before it does not contain the separator |
| Text.SplitOnceAfterPrefix | day-4/src/main.rs:14 | `split_once` cuts at the first occurrence of the separator |
| Text.ParseNat | day-1/src/main.rs:8 | succeeds exactly on an optional `+` followed by ASCII digits |
| Text.ParseNatToString | day-4/src/main.rs:16-18 | the decimal text of a number, with or without a `+`, parses back as that number |
| Text.FindFrom | day-5/src/main.rs:88 | the first occurrence of the separator at or after an offset, or the end when there is none |
| Text.IndexOf | day-8/src/main.rs:29 | `find` gives the first position of the character |
| Seqs.Sort | day-1/src/main.rs:14 | `sort` gives an ascending permutation of its input |
| Seqs.SortedPermutationUnique | day-7/src/main.rs:9 | there is only one ascending permutation, so any correct sort gives the same result |
| Seqs.ReversePermutation | day-1/src/main.rs:15 | `reverse` keeps the multiset of elements |
| Seqs.ReverseSorted | day-1/src/main.rs:15 | reversing an ascending sequence gives a descending one |
| Seqs.SumPermutation | day-1/src/main.rs:16 | a sum does not depend on the order of its terms |
| Results.Collect | day-5/src/main.rs:90-93 | succeeds exactly when every item does, with the values in order; otherwise fails with the error of the first item that fails |
| Results.CollectOk | day-5/src/main.rs:90-93 | when every item succeeds, the collected values are those items' values |

## Left out

- Reading the input file, printing the answer, and `main`'s `io::Error` are left out on every day: each model starts from the input text and ends with the answer or the panic.
- Integer widths are not modelled. Heights, calories, sizes and priorities are unbounded naturals, so the overflow of a `u32` sum (days 1 and 3), of a `usize` parse or sum (days 4, 5 and 7), and of day 4's `+ 1` cannot happen in the model.
- Day8.Height: models the debug build, where a byte below `'0'` makes `b - '0'` panic. A release build would wrap around instead; that is not modelled.
- Text is a sequence of `char`s. Day 3 halves each line by its length in bytes, and days 5, 6 and 8 work on the input's bytes; the model treats each character as one byte; multi-byte UTF-8 is not modelled. `Day6.FirstMarker` is generic in the element type, so it also applies to the bytes themselves.
- `str::lines` also strips a `\r` before each `\n`. The model handles only `\n` line endings.
- Day3.SharedItem: a `HashSet` yields shared items in an unspecified order. The model picks the earliest item of the first half, and its contract promises only "some item found in both halves".
- Day 5's `\d` matches any Unicode decimal digit in the `regex` crate; the model accepts ASCII digits only. The regex engine itself is replaced by a direct leftmost search for the one pattern.
- Day5.ParseState: the contract states the error for an empty drawing and the number of stacks. The stacks' contents are stated by `Day5.ParseDrawing` for drawings of a state, not for arbitrary text.
- Day5.ApplyMove: the index panics of `apply_move` are a `requires` (`ValidMove`). `Day5.Solve` turns a move that would panic into an error, and also an empty stack at the end.
- Day7.Part2: the two `usize` subtractions, the `last().unwrap()` and the final indexing are a `requires` on the sorted sizes, not panics. Part 2 starts from the sorted sizes rather than from the input text.
- Day7.Need: the `usize` subtraction of `part_2` would panic when more than 70000000 bytes are used or fewer than 40000000; the model requires the used space to lie between the two.
- Day7.BinarySearch: among equal elements, Rust's `binary_search` may return any of their indices. The contract states only that promise, so it holds for whichever index the model's own loop finds.
- Day 7 splits every line into words up front. The program splits each line as the cursor reaches it; splitting is pure, so the result is the same.
- Day 7 is modelled as written, including the outermost frame: it records the root's size a second time, after `$ cd /` returns.
- `Text.SplitOn` requires a non-empty separator, the only kind the programs use.
- Day8.Update: its own contract states only that it keeps the number of flags. What it does to each flag is stated by `Day8.UpdateAt`, `Day8.UpdateKeeps` and `Day8.UpdateElsewhere`.
- Day7.Tokenize: its own contract states only that there is one entry per line. `Day7.TokenizeEach` states how each line is split.
- Day5.DigitRun and Day5.NumberAfter: their own contracts state only bounds. `Day5.DigitRunIsMaximal` and `Day5.NumberAfterSpec` state what they find.
- Day8Visibility.CountIsVisible: stated for grids with at least one row and exactly `width * height` heights. When the input ends in a partial row, `Parse` leaves that row out of the height and the flags, but its heights stay in the list. The sweeps from the bottom (day-8/src/main.rs:68-77) walk the heights from the partial row up and the flags from the last full row up, so in every column the partial row reaches, each height is paired with the flag one row above its own tree, and the count can change: `999\n909\n959\n12` counts 9 trees, and without the `12` it counts 8. The model pairs them the same way (`ColumnTrees` runs over all the heights, `ColumnFlags` over the flags) but states no meaning for such grids.
- Day7.EvaluateSession, Day7.WalkSession, Day7.RunTranscript and Day7.VisitTranscript: stated for sessions that explore each directory once. A directory is listed with one `$ ls` as soon as it is entered, with its `dir` and file lines in any order. The `dir` lines name its subdirectories in the order they are then entered with `$ cd`, and each subdirectory is left with `$ cd ..`. `Day7.EvaluateCutSession` also allows any number of the final `$ cd ..` lines to be missing, as in the puzzle's example. `Day7.Evaluate` runs on every input, but no meaning is stated for sessions that list a directory twice or not at all, or enter a directory more than once.
- Day8.Count and Day8.Part1 use the column stride the program evidently intends (see Findings). `Day8.CountAsWritten` keeps the stride as written.

## Findings

| source | as written | input that shows it | evidently intended | confidence | as-written member | corrected member |
|---|---|---|---|---|---|---|
| day-8/src/main.rs:63-76 | the column sweeps step through the row-major heights and flags with `step_by(grid.height)` | a grid 4 trees wide and 3 rows tall, rows `0550`, `5535`, `5555`: the tree of height 3 in row 1, column 2 is hidden on all four sides, yet the first column sweep (positions 0, 3, 6, 9) flags it | `step_by(grid.width)`, the distance between two trees of one column; the two agree only on square grids, which is what the puzzle inputs are | high for non-square grids; not executed | Day8.CountAsWritten, with Day8Visibility.HeightStrideMarksHiddenTree | Day8.Count, with Day8Visibility.CountIsVisible |
