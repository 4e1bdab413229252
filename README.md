# Advent of Code 2024, days 1, 2 and 4 to 10, in Dafny

This project models nine of the repository's puzzle solvers. Each solver reads one input file
and prints the answers to both parts of its puzzle. The model follows each solver's own steps:
parsing, the data structures it mutates and the loops it runs. Each step is proved against a
reference definition of what the puzzle asks. The modules and the solvers they model:

| module | solver | what it computes |
|---|---|---|
| `LocationLists` | `src/bin/day1.rs` | two columns of location ids, sorted; the total pairwise distance and the similarity score |
| `Reports` | `src/bin/day2.rs` | reactor reports that are safe, and those the problem dampener rescues by dropping one level |
| `WordSearch` | `src/bin/day4.rs` | "XMAS" in eight directions on a letter grid, and crosses of two "MAS" |
| `PageOrder` | `src/bin/day5.rs` | print-queue updates checked against "X\|Y" ordering rules; the middle pages of the correct ones; the incorrect ones repaired by swaps |
| `Patrol`, `PatrolWalk` | `src/bin/day6.rs` | a guard walking a board and turning right at obstacles; the cells it covers; the cells where one more obstacle makes it loop |
| `Calibration` | `src/bin/day7.rs` | equations whose numbers reach the answer under `+`, `×` and concatenation, evaluated left to right |
| `Antennas` | `src/bin/day8.rs` | antinodes cast by pairs of antennas of one frequency, mirrored (part 1) or along the whole line (part 2) |
| `Disk` | `src/bin/day9.rs` | a dense disk map expanded into blocks, compacted block by block and file by file, and its checksum |
| `Trails` | `src/bin/day10.rs` | hiking trails climbing from height 0 to 9 one step at a time; trailhead scores and ratings |

`Text` models the parts of Rust's string library that the parsers use: `lines`, `split`,
`split_whitespace`, `trim`, integer `parse` and `format!`. `Wrappers` holds `Option` and `Result`.

Where a solver mutates state, the model does too. The day 6 board and its rounds form the class
`Patrol.Board`. The day 9 disk is the class `Disk.Disk`, its blocks an `array` updated in place.
The day 8 antenna sets form the class `Antennas.Antennas`, its `HashMap`s modelled as a `map` and
a `set`. Every loop is a `while` or `for` loop with invariants. Each such method's `ensures`
ties its result, or the new state, to a function of its inputs. The puzzle's properties are
proved about those functions as lemmas. Code that only computes a value is modelled as functions.

## Model

| member | source | states |
|---|---|---|
| `Text.LinesUnlines` | src/bin/day1.rs:35 | `str::lines` gives back the lines of a text written one line per `\n`, for lines without a line break or trailing `\r` |
| `Text.JoinSplit` | src/bin/day7.rs:49 | `split(c)` loses nothing: joining the pieces with `c` rebuilds the text |
| `Text.SplitJoin` | src/bin/day7.rs:49 | splitting pieces that hold no `c`, after joining them with `c`, gives the pieces back |
| `Text.SplitWhitespaceUnwords` | src/bin/day1.rs:37 | `split_whitespace` gives back words joined by single spaces |
| `Text.SplitWhitespaceWords` | src/bin/day2.rs:37 | every piece of `split_whitespace` is a non-empty run of non-whitespace characters |
| `Text.ParseShow` | src/bin/day7.rs:55 | integer `parse` reads back `format!("{n}")` for every `n` the type can hold |
| `Text.DigitsValueAppend` | src/bin/day7.rs:119 | the value of the concatenation of two digit strings is the first value times 10 to the second's length, plus the second value |
| `Text.ToDigit` | src/bin/day9.rs:37 | `to_digit(10)` succeeds exactly on `'0'`..`'9'` and returns the digit the character writes |
| `Text.Utf8Len` | src/bin/day8.rs:37 | `str::len` counts UTF-8 bytes; it equals the number of characters exactly when all of them are ASCII |
| `LocationLists.ParsedMeans` | src/bin/day1.rs:36-42 | when every token parses, the numbers are the tokens' values in order |
| `LocationLists.PairsMeans` | src/bin/day1.rs:44-47 | the length check passes for the first `n` lines exactly when each of them holds two numbers |
| `LocationLists.ColumnMeans` | src/bin/day1.rs:49-50 | entry `k` of a list is number `c` of line `k` |
| `LocationLists.BuildLists` | src/bin/day1.rs:35-51 | success exactly when every line holds two numbers, the lists then being the two columns; otherwise the error names the first line that does not |
| `LocationLists.SortSorted` | src/bin/day1.rs:53-54 | the reference sort orders its list |
| `LocationLists.Sort` | src/bin/day1.rs:53-54 | the reference sort keeps the multiset of ids |
| `LocationLists.SortIsTheSort` | src/bin/day1.rs:53-54 | any sorted permutation equals the reference sort, so `Vec::sort` computes it |
| `LocationLists.SortedUnique` | src/bin/day1.rs:53-54 | two sorted lists with the same multiset are equal |
| `LocationLists.Gap` | src/bin/day1.rs:59-63 | the branch on `x > y` gives the absolute difference: zero exactly when equal, and what the smaller needs to reach the larger |
| `LocationLists.TotalDistance` | src/bin/day1.rs:56-64 | the loop over the zipped lists sums the gaps of the first `min` pairs |
| `LocationLists.DistanceSymmetric` | src/bin/day1.rs:58-64 | swapping the lists leaves the distance unchanged |
| `LocationLists.DistanceZero` | src/bin/day1.rs:58-64 | the distance is zero exactly when the zipped parts are equal |
| `LocationLists.DistanceBound` | src/bin/day1.rs:58-64 | the two lists' sums differ by at most their distance |
| `LocationLists.CountMultiset` | src/bin/day1.rs:70-75 | the inner count is the multiplicity of the id in the right list |
| `LocationLists.Occurrences` | src/bin/day1.rs:70-75 | the inner loop counts the occurrences of `i` |
| `LocationLists.SimilarityScore` | src/bin/day1.rs:68-77 | the outer loop sums each left id times its count on the right |
| `LocationLists.SimilarityAppend` | src/bin/day1.rs:68-77 | the score of a concatenated left list is the sum of the scores |
| `LocationLists.SimilarityRight` | src/bin/day1.rs:68-77 | the score depends only on the multiset of the right list |
| `LocationLists.SimilarityLeft` | src/bin/day1.rs:68-77 | the score depends only on the multiset of the left list |
| `LocationLists.SimilarityOrderFree` | src/bin/day1.rs:53-77 | sorting before scoring does not change the similarity |
| `LocationLists.Totals` | src/bin/day1.rs:24-82 | both answers: the distance of the sorted columns and the similarity of the columns; or the first malformed line |
| `Reports.IsSafe` | src/bin/day2.rs:65-84 | the four flags decide safety: at least two levels, all steps rising or all falling, each by 1 to 3 |
| `Reports.FlagsNext` | src/bin/day2.rs:68-78 | one iteration sets each flag exactly when its step shows that trait |
| `Reports.FlagsMean` | src/bin/day2.rs:80-83 | the final `matches!` is equivalent to the safety definition |
| `Reports.Remove` | src/bin/day2.rs:48-49 | `Vec::remove(i)` shifts the later levels down by one |
| `Reports.Dampen` | src/bin/day2.rs:47-55 | the dampener loop succeeds exactly when removing some level makes the report safe |
| `Reports.SafeDropFirst` | src/bin/day2.rs:47-55 | dropping the first level of a safe report of three or more keeps it safe |
| `Reports.SafeDropLast` | src/bin/day2.rs:47-55 | dropping the last level of a safe report of three or more keeps it safe |
| `Reports.SafeDampenable` | src/bin/day2.rs:44-55 | the dampener never turns away a safe report of three or more levels |
| `Reports.ParsedMeans` | src/bin/day2.rs:36-42 | when every token parses as `i32`, the levels are their values in order |
| `Reports.ParsedNone` | src/bin/day2.rs:36-42 | tokens that do not parse are dropped: a line of none gives no levels |
| `Reports.CountsAdd` | src/bin/day2.rs:44-60 | safe plus rescued reports are the tolerated ones, each counted once |
| `Reports.Tally` | src/bin/day2.rs:24-63 | the two printed numbers are the counts of safe and of tolerated reports |
| `WordSearch.CheckIsXmas` | src/bin/day4.rs:43-44 | `check` accepts exactly the letters of "XMAS" |
| `WordSearch.StraightReads` | src/bin/day4.rs:56-102 | the four straight tests count the readings rightwards, leftwards, downwards and upwards that fit the grid |
| `WordSearch.DiagonalsRead` | src/bin/day4.rs:104-138 | the `\|\|` of each diagonal loses nothing: the two tests count all four diagonal readings |
| `WordSearch.CrossMeans` | src/bin/day4.rs:140-154 | part 2 counts a cell exactly when its 3×3 block fits and both diagonals read MAS one way or the other |
| `WordSearch.Search` | src/bin/day4.rs:40-156 | the nested loops produce both totals of the cell scores in row-major order |
| `WordSearch.EveryReadingOnce` | src/bin/day4.rs:54-156 | the part-1 total is the number of (start cell, direction) pairs that read "XMAS" |
| `WordSearch.GridScoreBound` | src/bin/day4.rs:54-156 | each total is at most the largest cell score times the number of cells |
| `PageOrder.FindMeans` | src/bin/day5.rs:107-109 | `find` gives the first position of the needle, and nothing exactly when it is absent (`find`'s own `ensures` states only its bound) |
| `PageOrder.PrefixHas` | src/bin/day5.rs:54 | `pages[0..=index].contains(x)` holds exactly when `x`'s first position is at most `index` |
| `PageOrder.ViolatesMeans` | src/bin/day5.rs:53-56 | the tests of the ordering check and of the repair both mean that `after` comes before the first `before` |
| `PageOrder.CorrectMeans` | src/bin/day5.rs:49-58 | an update is correct exactly when it violates none of the rules |
| `PageOrder.CheckUpdate` | src/bin/day5.rs:49-58 | the rule loop's flag is the correctness of the update |
| `PageOrder.ApplyMeans` | src/bin/day5.rs:76-89 | one rule's turn swaps exactly when the rule is broken, and only rearranges pages |
| `PageOrder.SwapMends` | src/bin/day5.rs:85-88 | the swap mends the rule it was made for |
| `PageOrder.PassMeans` | src/bin/day5.rs:76-90 | a pass keeps the pages and reports no swap exactly when no rule is broken, leaving the update unchanged |
| `PageOrder.RepairPass` | src/bin/day5.rs:76-90 | the pass loop computes a pass over all rules |
| `PageOrder.RepairedSound` | src/bin/day5.rs:74-97 | a repair that settles is correctly ordered and a permutation of the update |
| `PageOrder.RepairKeepsCorrect` | src/bin/day5.rs:89-96 | a correct update comes out unchanged once `i` has counted up to its length |
| `PageOrder.Repair` | src/bin/day5.rs:74-97 | the repair loop, `i` reset by any swap, stopping when `i` reaches the length |
| `PageOrder.ParseRules` | src/bin/day5.rs:35-40 | one rule per line, or the first line without a `\|` |
| `PageOrder.FilterPartition` | src/bin/day5.rs:60-65 | every update lands in exactly one of the two groups |
| `PageOrder.FilterMember` | src/bin/day5.rs:60-65 | an update kept in a group has that group's verdict |
| `PageOrder.SortedMeans` | src/bin/day5.rs:46-66 | the ordering loop sums the middle pages of the correct updates and collects the others in order |
| `PageOrder.Sort` | src/bin/day5.rs:46-66 | the ordering loop over the updates |
| `PageOrder.RepairOne` | src/bin/day5.rs:72-100 | one incorrect update repaired and its middle page parsed |
| `PageOrder.RepairAll` | src/bin/day5.rs:70-101 | the sum of the repaired middle pages, or the first error |
| `PageOrder.Totals` | src/bin/day5.rs:24-105 | `MissingUpdates` exactly when there is no blank line; a rules section with a line without `\|` gives that first line; otherwise both totals are the middle-page sum of the correct updates and that of the repaired others, or the first bad middle page of part 1, or else the first error of part 2 |
| `PageOrder.SortedFails` | src/bin/day5.rs:60-62 | the ordering loop can only fail on a middle page that is not a `u32` |
| `Patrol.MarkBits` | src/bin/day6.rs:125-130 | marking ORs in exactly the facing's bit and is idempotent |
| `Patrol.Ahead` | src/bin/day6.rs:132-134 | the cell ahead of a guard not facing out is on the board and is another cell |
| `Patrol.RoundEffect` | src/bin/day6.rs:116-195 | a round: at the edge facing out, Exit with the visited count and no change; otherwise only the guard's cell is marked, Loop exactly when the cell ahead carries the facing's bit, else one step ahead or a right turn at an obstacle |
| `Patrol.LoopRepeats` | src/bin/day6.rs:243-252 | after a Loop report the board is unchanged, so the first loop of `main` never stops |
| `Patrol.PatrolledAfterLoop` | src/bin/day6.rs:243-252 | once a round reports Loop, the first loop of `main` runs out of any budget |
| `Patrol.RunStep` | src/bin/day6.rs:204-210 | the loop of `is_loop` stops on Loop or Exit and goes on after Unresolved |
| `Patrol.StartCellObstacle` | src/bin/day6.rs:197-211 | `is_loop` on the guard's own cell answers as the empty board does, since the first round overwrites the obstacle |
| `Patrol.TallyStaysNone` | src/bin/day6.rs:254-262 | once a cell's search runs out of budget, the count of loops stays undefined |
| `Patrol.CountVisitedObstacle` | src/bin/day6.rs:202 | an obstacle written over an unvisited cell leaves the visited count unchanged |
| `Patrol.Board.Visited` | src/bin/day6.rs:217-229 | `visited` returns the number of visited cells plus one |
| `Patrol.Board.CoveredCells` | src/bin/day6.rs:217-229 | the corrected count: the visited cells plus the exit cell when that cell is new |
| `Patrol.Board.Round` | src/bin/day6.rs:116-195 | `round` changes the board as one step of the round function |
| `Patrol.Board.StepFrom` | src/bin/day6.rs:125-136 | the marking and the test ahead, shared by the four facings |
| `Patrol.Board.IsEmpty` | src/bin/day6.rs:213-215 | a cell is empty or visited exactly when it holds no obstacle |
| `Patrol.Board.IsLoop` | src/bin/day6.rs:197-211 | `is_loop` answers false on an obstacle; otherwise it places one and runs rounds until Loop or Exit |
| `Patrol.Board.Rounds` | src/bin/day6.rs:204-210 | the round loop of `is_loop` |
| `Patrol.Board.Patrol` | src/bin/day6.rs:243-252 | the first loop of `main`, ignoring Loop, with the corrected count at the exit |
| `Patrol.CountLoops` | src/bin/day6.rs:254-262 | the nested loops over all cells count those where `is_loop` on a fresh clone answers true |
| `Patrol.ParseBoard` | src/bin/day6.rs:57-110 | `Board::new`: an unknown character, no rows or ragged rows is an error; otherwise the cells, the dimensions, and the last guard character's position and facing |
| `Patrol.Solve` | src/bin/day6.rs:232-266 | text that does not parse gives the parse's failure; otherwise, for the board parsed from the text, the answers come back exactly when both searches settle within the budget, and they are the patrol's corrected count of distinct cells (`Patrol.Covered`, not the `visited` value `main` prints) and the count of loop-making cells |
| `Patrol.ParseFailureUnique` | src/bin/day6.rs:57-110 | the failure `Board::new` reports is determined by the lines |
| `Patrol.ParseExclusive` | src/bin/day6.rs:57-110 | lines that fail to parse never also parse |
| `Patrol.BoardOfUnique` | src/bin/day6.rs:57-110 | the board built from the lines is determined by them |
| `Patrol.GuardScannedUnique` | src/bin/day6.rs:60-92 | the guard's start and facing are determined by the lines: those of the last guard character |
| `PatrolWalk.StepTracks` | src/bin/day6.rs:116-195 | after `k` Unresolved rounds, the marks record exactly the poses of the first `k` moves of the unmarked walk |
| `PatrolWalk.LoopTracks` | src/bin/day6.rs:132-133 | a Loop report means the walk's next pose is one it already had |
| `PatrolWalk.WalkForever` | src/bin/day6.rs:204-210 | a walk that returns to an earlier pose never leaves the board |
| `PatrolWalk.RunSound` | src/bin/day6.rs:204-210 | Looped only if the walk never leaves; Exited only if it does |
| `PatrolWalk.ExitLeaves` | src/bin/day6.rs:121-123 | an Exit report means the guard leaves with its next move |
| `PatrolWalk.LoopAtSound` | src/bin/day6.rs:197-211 | for an empty cell other than the start, `is_loop` answers true exactly when an obstacle there keeps the guard on the board forever |
| `PatrolWalk.CountVisitedCard` | src/bin/day6.rs:217-229 | the counting loop of `visited` counts the set of visited cells |
| `PatrolWalk.CountFootprint` | src/bin/day6.rs:217-229 | the visited cells are the cells the walk has stood on |
| `PatrolWalk.ExitCountFootprint` | src/bin/day6.rs:217-229 | `visited` gives the number of cells of the whole walk exactly when the exit cell is new |
| `PatrolWalk.CoveredFootprint` | src/bin/day6.rs:217-229 | the corrected count is the number of distinct cells of the whole walk |
| `PatrolWalk.PatrolCountsCells` | src/bin/day6.rs:243-252 | the first answer of `main` is the number of distinct cells the guard stands on before it leaves |
| `PatrolWalk.ExitOvercounts` | src/bin/day6.rs:217-229 | on the board `#<` the count `visited` reports is 2, while the guard stands on 1 cell |
| `Calibration.ParseEquation` | src/bin/day7.rs:48-69 | a line is accepted exactly when it has two `:`-fields and the first parses as `u64` |
| `Calibration.NewEquations` | src/bin/day7.rs:45-73 | `Equations::new`: one equation per line in order, or an error when some line is malformed |
| `Calibration.ParseRender` | src/bin/day7.rs:48-69 | parsing an equation's rendered line gives the equation back |
| `Calibration.RenderedFile` | src/bin/day7.rs:45-73 | equations written one per line are read back as they were |
| `Calibration.EncodeDecode` | src/bin/day7.rs:156-167 | every operator assignment is the row of exactly one index below 4^n |
| `Calibration.DecodeEncode` | src/bin/day7.rs:156-167 | every index below 4^n is the code of its row |
| `Calibration.DecodeAt` | src/bin/day7.rs:159 | operator `j` of row `i` is the 2-bit field `(i >> 2j) & 3` |
| `Calibration.TableExact` | src/bin/day7.rs:153-182 | the table holds exactly the assignments of `n` operators drawn from the list |
| `Calibration.RowsDistinct` | src/bin/day7.rs:153-182 | no assignment appears twice in the table |
| `Calibration.OperTable` | src/bin/day7.rs:153-182 | `oper_table` pushes the valid rows in index order |
| `Calibration.DecodeRow` | src/bin/day7.rs:157-167 | the row loop decodes index `i` |
| `Calibration.AllListed` | src/bin/day7.rs:169-174 | the `contains` loop keeps a row exactly when all its operators are listed |
| `Calibration.ApplyCombine` | src/bin/day7.rs:117-140 | an operator gives its exact value when that fits in a `u64`, and stops the row otherwise |
| `Calibration.ConcatParses` | src/bin/day7.rs:119 | the parse of the concatenated digits succeeds exactly when the decimal concatenation fits in a `u64` |
| `Calibration.CheckedExact` | src/bin/day7.rs:110-141 | a row evaluated without overflow gives the exact left-to-right value |
| `Calibration.FoldChecked` | src/bin/day7.rs:110-141 | where no step overflows, the solver's total is that value |
| `Calibration.EvaluateRow` | src/bin/day7.rs:104-141 | the inner loop pops the first number as the total and folds in one number per operator, keeping the last total on a `break` |
| `Calibration.TableMatchAccepts` | src/bin/day7.rs:103-147 | some row of the table matches exactly when some assignment from the list does |
| `Calibration.PushedCases` | src/bin/day7.rs:81-147 | what one equation pushes: nothing without numbers; a lone number equal to the answer twice; otherwise the answer once when some assignment matches |
| `Calibration.Contribution` | src/bin/day7.rs:81-147 | the body of `valid` for one equation |
| `Calibration.RunTable` | src/bin/day7.rs:94-147 | the table lookup and the row loop |
| `Calibration.Valid` | src/bin/day7.rs:76-151 | `valid` returns each equation's pushes in order |
| `Calibration.SolvableMeans` | src/bin/day7.rs:76-151 | a solvable equation has an assignment whose exact value is the answer; a lone number is solvable exactly when it is the answer |
| `Calibration.AnswersCalibrated` | src/bin/day7.rs:76-151 | for equations of two or more numbers that never overflow, `valid` returns the solvable equations' answers |
| `Calibration.LoneNumberCountedTwice` | src/bin/day7.rs:86-92 | "5: 5" is pushed twice, though it is one true equation |
| `Calibration.OverflowAccepted` | src/bin/day7.rs:125-146 | "2: 2 18446744073709551615" is accepted: both operators overflow, so the row keeps its first number |
| `Calibration.OverflowRejected` | src/bin/day7.rs:125-146 | the intended reading rejects that equation |
| `Antennas.Antennas.constructor` | src/bin/day8.rs:32-54 | `Antennas::new`: an antenna at every character other than `.`, keyed by its (line, character) position and holding the character's low byte; the dimensions are the line count and the first line's byte length; no antinodes yet |
| `Antennas.Antennas.NAntipodes` | src/bin/day8.rs:96-106 | part 1 counts the antinodes; part 2 counts the antinodes and antenna cells, each counted once |
| `Antennas.Antennas.Distances` | src/bin/day8.rs:56-94 | `distances` adds the antinodes of every ordered pair of distinct antennas of one frequency |
| `Antennas.Antennas.CastFrom` | src/bin/day8.rs:63-92 | the loop over the other antennas, for one antenna |
| `Antennas.Antennas.Cast` | src/bin/day8.rs:72-90 | the stepping loop inserts the first point beyond the antenna (part 1), or every point until the edge (part 2) |
| `Antennas.MirrorSound` | src/bin/day8.rs:72-89 | a part-1 antinode is on the grid and mirrors an antenna through another of its frequency |
| `Antennas.MirrorComplete` | src/bin/day8.rs:72-89 | every such mirror image on the grid is a part-1 antinode |
| `Antennas.RaySound` | src/bin/day8.rs:75-90 | every point of a ray is on the grid, a whole number of steps from its start |
| `Antennas.RayComplete` | src/bin/day8.rs:75-90 | from an antenna on the grid, the ray reaches every point that many steps away on the grid |
| `Antennas.HarmonicSound` | src/bin/day8.rs:72-90 | a part-2 antinode is on the grid, on the line through two antennas of one frequency, away from the second |
| `Antennas.HarmonicComplete` | src/bin/day8.rs:72-90 | when the first antenna of a same-frequency pair is on the grid, every point on the grid a whole number (1 or more) of their distances beyond it, away from the second, is a part-2 antinode |
| `Antennas.MirrorIsHarmonic` | src/bin/day8.rs:72-90 | every part-1 antinode is a part-2 antinode |
| `Antennas.PairedCount` | src/bin/day8.rs:96-106 | the corrected part-2 count is at most the one reported |
| `Antennas.PairedCountAgrees` | src/bin/day8.rs:96-106 | the two counts agree when no antenna is alone on its frequency |
| `Antennas.LoneAntennaCounted` | src/bin/day8.rs:96-106 | on the grid "A" nothing is cast, yet the part-2 count is 1 |
| `Antennas.LoneAntennaIgnored` | src/bin/day8.rs:96-106 | the corrected count is 0 on that grid |
| `Disk.DigitValues` | src/bin/day9.rs:37 | the digits of the map, or nothing exactly when some character is not a digit |
| `Disk.LayoutLength` | src/bin/day9.rs:34-61 | the disk is as long as its digits add up to |
| `Disk.LayoutCount` | src/bin/day9.rs:34-61 | file `k` takes as many blocks as its length digit says |
| `Disk.LayoutOrdered` | src/bin/day9.rs:39-58 | the files lie in id order |
| `Disk.LayoutContiguous` | src/bin/day9.rs:39-58 | each file of a fresh disk is in one piece |
| `Disk.Expand` | src/bin/day9.rs:39-58 | the main loop of `Disk::new` pushes each file's blocks, then its free blocks, with ids counting up |
| `Disk.Push` | src/bin/day9.rs:51-57 | a push loop appends `n` copies of the block |
| `Disk.Disk.constructor` | src/bin/day9.rs:34-61 | `Disk::new` holds the layout of the trimmed map's digits |
| `Disk.CountMultiset` | src/bin/day9.rs:120-130 | a file's block count is its multiplicity among the blocks |
| `Disk.RangeSound` | src/bin/day9.rs:132-152 | `block_range` is nothing exactly when the file has no block, and otherwise runs from its first block to its last |
| `Disk.FreeRangeSound` | src/bin/day9.rs:154-182 | `first_free_range` is the leftmost run of `len` free blocks, and nothing when there is none or `len` is 0 |
| `Disk.FreeRangeUnique` | src/bin/day9.rs:154-182 | any answer with those properties is `first_free_range`'s |
| `Disk.TrailingFreeRun` | src/bin/day9.rs:159-179 | the free blocks counted so far form the longest free run ending at the current index |
| `Disk.Unfragmented` | src/bin/day9.rs:184-199 | a disk is not fragmented exactly when it is file blocks followed by free blocks |
| `Disk.WeightedUpdate` | src/bin/day9.rs:201-213 | overwriting a block changes the checksum by exactly the difference of the two blocks' weights |
| `Disk.FreeingLowersChecksum` | src/bin/day9.rs:201-213 | freeing a block of file `id` at index `i` lowers the checksum by `id × i` |
| `Disk.MoveLastEffect` | src/bin/day9.rs:69-90 | a `defrag` pass keeps the length and moves the last file block to the first free block, further left |
| `Disk.MoveLastKeeps` | src/bin/day9.rs:69-90 | a pass keeps the multiset of blocks |
| `Disk.MoveLastLowers` | src/bin/day9.rs:69-90 | a pass strictly lowers the sum of the file blocks' indices, so `defrag` terminates |
| `Disk.DefraggedSound` | src/bin/day9.rs:63-92 | `defrag` ends unfragmented, with the same length and the same blocks |
| `Disk.IdsFromEndSound` | src/bin/day9.rs:95-102 | the id scan lists every file of the disk exactly once |
| `Disk.RelocateSound` | src/bin/day9.rs:107-113 | relocating a file to a free run of its length keeps the blocks and puts the file on that run |
| `Disk.MoveFileSound` | src/bin/day9.rs:104-117 | a move keeps the blocks and the disk contiguous; a file that moves lands on the leftmost fitting run, further left, and nothing else changes |
| `Disk.MoveFilesStep` | src/bin/day9.rs:104-117 | the loop over the ids moves one file, then goes on with the rest |
| `Disk.MoveFilesSound` | src/bin/day9.rs:94-118 | `defrag_pt2` on a contiguous disk keeps its blocks and keeps it contiguous |
| `Disk.CompactionsKeepFiles` | src/bin/day9.rs:229-247 | after both compactions every file keeps the length its digit gives |
| `Disk.Disk.Defrag` | src/bin/day9.rs:63-92 | `defrag` changes the array to the block-wise compaction |
| `Disk.Disk.FreeLast` | src/bin/day9.rs:71-81 | the first inner loop frees the last file block and returns its id |
| `Disk.Disk.FillFirstFree` | src/bin/day9.rs:83-90 | the second inner loop gives the first free block that id |
| `Disk.Disk.DefragPt2` | src/bin/day9.rs:94-118 | `defrag_pt2` changes the array to the file-wise compaction in the scanned order |
| `Disk.Disk.MoveBlocks` | src/bin/day9.rs:107-113 | the two loops of a move free the file's range and fill the free range |
| `Disk.Disk.CollectIds` | src/bin/day9.rs:95-102 | the distinct ids, scanning from the end |
| `Disk.Disk.BlockLen` | src/bin/day9.rs:120-130 | `block_len` counts the file's blocks |
| `Disk.Disk.BlockRange` | src/bin/day9.rs:132-152 | the scan returns the reference range: the first and the last index of the file's blocks |
| `Disk.Disk.FirstFreeRange` | src/bin/day9.rs:154-182 | the scan returns the leftmost run of `len` free blocks, as first and last index |
| `Disk.Disk.IsFragmented` | src/bin/day9.rs:184-199 | `is_fragmented` is true exactly when some free block comes before some file block |
| `Disk.Disk.Checksum` | src/bin/day9.rs:201-213 | `checksum` sums index times id over the file blocks |
| `Trails.Walk` | src/bin/day10.rs:87-128 | the recursive `walk` with its loop over the neighbours |
| `Trails.WalkHikes` | src/bin/day10.rs:87-128 | given found paths none of which passes through the current path, the walk appends exactly the hikes from `pos` and its merges drop nothing |
| `Trails.AbsorbHikes` | src/bin/day10.rs:113-123 | taking in a child's result appends the child's hikes |
| `Trails.HikesNoDup` | src/bin/day10.rs:100-125 | the walk completes no path twice |
| `Trails.HikesSound` | src/bin/day10.rs:94-125 | every completed path is the path so far followed by a hike: steps of +1 between neighbours on the map, ending on 9 |
| `Trails.HikesComplete` | src/bin/day10.rs:94-125 | every hike from `pos` is completed when the path so far lies below it |
| `Trails.MergeProperties` | src/bin/day10.rs:115-120 | the fold with `contains` holds the elements of both lists, none twice |
| `Trails.RecordedHikes` | src/bin/day10.rs:66-67 | from a trailhead the walk records the hikes, none twice |
| `Trails.RecordedSound` | src/bin/day10.rs:66-67 | every recorded path is the head twice, then a hike from the head |
| `Trails.RecordedComplete` | src/bin/day10.rs:66-67 | every hike from the head is recorded |
| `Trails.ScoreEndpoints` | src/bin/day10.rs:72-81 | the score counts distinct cells, exactly the ends of the trailhead's hikes |
| `Trails.ScoreBound` | src/bin/day10.rs:66-85 | a trailhead's score is at most its rating |
| `Trails.TotalScore` | src/bin/day10.rs:141-151 | the loops of `main` sum the scores, or the ratings, over the trailheads |
| `Trails.ScoreSumBound` | src/bin/day10.rs:141-151 | the total score never exceeds the total rating |
| `Trails.ZerosMeans` | src/bin/day10.rs:44-57 | the trailheads are exactly the height-0 cells, in row-major order |
| `Trails.Heights` | src/bin/day10.rs:46-50 | each digit of a row is the height its character writes |
| `Trails.NewTrailMap` | src/bin/day10.rs:37-64 | `TrailMap::new`: an error when there are no lines or a non-digit; otherwise the first line's dimensions, the heights and the trailheads |

## Left out

- Reading the command line and the input file, printing, and `exit` are not modelled. Each solver's model starts from the input text.
- `src/bin/day3.rs` is not part of this model. It finds its instructions with the `regex` crate, which is not part of the repository.
- The `Display` implementations of days 8 and 9 only print for debugging and are not modelled.
- Fixed-width integers are unbounded, so sums and counters never wrap or overflow. The `u64` checks of day 7 are modelled, and so are the `u64`, `u32` and `i32` ranges of `parse`.
- `usize` is taken to be 64 bits wide: day 1's `parse::<usize>()` is modelled with the `u64` range, and the overflow of `4usize.pow(n)` in day 7 is placed at `n == 32`.
- The final sums in `main` of day 7 (`iter().sum()`) are not modelled: `Calibration.Valid` returns the list that is summed.
- Panics (`unwrap`, `panic!`, out-of-range indexing) become `Err` values or preconditions, and `exit(1)` becomes an error result.
- `Reports.IsSafe`: the `i32` subtraction `numbers[i] - numbers[i - 1]` may overflow in the source. The model reads it as exact.
- `LocationLists.Totals`: the `usize` sums of day 1 could overflow in the source, but here they are unbounded.
- `LocationLists.Totals`: `Vec::sort` is not modelled step by step. An insertion sort is the reference, and `LocationLists.SortIsTheSort` shows any sorted permutation equals it.
- `Patrol.Board.Patrol`, `Patrol.Board.Rounds`, `Patrol.Board.IsLoop` and `Patrol.CountLoops` take a round budget (`fuel`). The source's loops in `is_loop` and `main` are unbounded. The first loop of `main` never ends once a round reports Loop, which `Patrol.PatrolledAfterLoop` states.
- `PageOrder.Repair` takes a pass budget for the same reason: the source's repair loop need not stop.
- `Patrol.ParseBoard` gives `NoRows` for an empty input, on which the source panics at `board[0]`.
- `Patrol.ParseBoard` gives `NotRectangular` when the first row is empty or the rows differ in length. The rest of the day 6 model needs a rectangular board with at least one column. The source does run on some of these inputs. For `"\n"` the dimensions are (1, 0) and the guard leaves at once, so it prints 1 and 0. When a later row is longer than the first, the loop search tries only the first columns. A guard that starts in the extra columns is marked there, and facing up or right it indexes out of range. A later row shorter than the first can be indexed out of range. The model covers none of these runs.
- `Patrol.Board.Patrol` and `Patrol.Solve`: they answer the corrected count (`Patrol.Covered`), not the source's `visited` value. The source's value is modelled by `Patrol.Board.Visited` and in the round function (see Findings).
- `Trails.TotalScore` requires every row to be at least as long as the first. The source indexes only the cells a walk reaches and can run on some ragged maps.
- `Trails`: `isize` coordinates are unbounded integers.
- `Calibration.OperTable`, `Calibration.Valid`, `Calibration.Contribution`, `Calibration.RunTable`, `Calibration.Pushed`, `Calibration.PushedCases`, `Calibration.TableMatchAccepts` and `Calibration.AnswersCalibrated` require at most 32 numbers per equation (`n < 32` operators), because `4usize.pow(n)` overflows from 32 on. `>>` and `& 3` on `usize` are modelled as halving and the remainder modulo 4.
- `Calibration.Valid`: the `HashMap` cache of tables (`cached_tables`) is not modelled. The table is rebuilt for each equation, with the same result.
- `WordSearch.Search` requires a grid on which the source does not panic: a first row; at least 3 rows and 3 columns when the first row is non-empty; no row shorter than the first. Building the table from the lines (lines 32-35) is one `chars().collect()` per line, and the model takes the grid as given.
- `Antennas`: the `HashMap` keys are modelled as a set, so iteration order is left out. The answers do not depend on it. In `n_antipodes`, `sort` then `dedup` is modelled as the number of distinct cells.
- `Antennas.Antennas.constructor`: the width is `lines[0].len()`, the UTF-8 byte length, as in the source. `col as u8` keeps the low byte of the character.
- `PageOrder`: `split("\n\n")` uses the leftmost non-overlapping separators. When there are more than two sections, only the first two are used, as in the source.

## Findings

| source | as written | input that shows it | evidently intended | confidence | as-written member | corrected member |
|---|---|---|---|---|---|---|
| src/bin/day6.rs:217-229 | `visited` adds 1 for the exit cell even when the guard has already stood on it | the one-row board `#<`: the guard turns up on its only cell and leaves; 2 is reported | 1, the number of distinct cells the guard stood on | high, not executed | `PatrolWalk.ExitOvercounts` | `Patrol.Covered`, `PatrolWalk.PatrolCountsCells` |
| src/bin/day7.rs:86-92 | a lone number equal to the answer is pushed, then the table loop pushes it again | `5: 5`, whose part-1 total is 10 | 5, one true equation counted once | high, not executed | `Calibration.LoneNumberCountedTwice` | `Calibration.Calibrated`, `Calibration.SolvableMeans` |
| src/bin/day7.rs:125-146 | a checked `+` or `×` that overflows `break`s with `total` still holding the left operand, which can equal the answer | `2: 2 18446744073709551615`, whose total includes 2 | no valid assignment, so 0 | high, not executed | `Calibration.OverflowAccepted` | `Calibration.Calibrated`, `Calibration.OverflowRejected` |
| src/bin/day8.rs:96-106 | part 2 counts every antenna's cell, including an antenna alone on its frequency | the grid `A`, whose part-2 count is 1 | 0: a lone antenna is in line with no other antenna | medium, not executed | `Antennas.LoneAntennaCounted` | `Antennas.PairedCount`, `Antennas.LoneAntennaIgnored` |
