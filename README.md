# Advent of Code 2021 solvers, modelled in Dafny

This project models the 25 puzzle solvers of an Advent of Code 2021
repository written in Rust, one `dayN/src/main.rs` per day. Each day is one
Dafny module named after its puzzle (`day1.dfy` is `SonarSweep`, ...,
`day25.dfy` is `SeaCucumber`). Three further modules hold what several days
share: `Options` (the `Option` datatype), `Text` (the parts of Rust's string
API the parsers use: `split_once`, `split`, `split_whitespace`,
`strip_prefix`, `replace`, integer `parse`) and `Sorting` (`sort` on a
vector of numbers).

The solvers take their shape from the Rust code. Pure computations are
functions with contracts; loops that update variables are methods with
loop invariants, proved against a specification function. What the Rust
code updates in place keeps that form: the probe of day 17 and the ALU of
day 24 are classes, the vent grid of day 5, the fish timers of day 6, the
octopus levels of day 11 and the risk distances of day 15 are arrays, and
the memo tables of days 21 and 23 are maps passed in and returned. Panics
(`unwrap`, indexing, `unreachable!`) become preconditions where every
caller meets them, and `Option` results where the input decides. Parsing is
modelled on strings; reading files and printing answers are left out.

Each module proves what its day promises: that the answer is what the
puzzle asks (an optimum, a count, a decoded value), that parsers read back
what a printer writes, and the invariants the Rust code relies on. Where the
program as written computes something other than what it evidently means
to, the "Findings" table lists it; such a day models the code as written,
and proves the discrepancy and the corrected version side by side.

## Model

| member | source | states |
|---|---|---|
| SonarSweep.Zip | day1/src/main.rs:29 | `zip` pairs up the elements at equal positions until the shorter side runs out |
| SonarSweep.Skip | day1/src/main.rs:29 | `skip(n)` drops the first `n` readings, or all of them when there are fewer |
| SonarSweep.CountRising | day1/src/main.rs:31 | the number of rising pairs is at most the number of pairs |
| SonarSweep.Part1 | day1/src/main.rs:26-31 | part 1 counts at most one rise per reading after the first |
| SonarSweep.Windows | day1/src/main.rs:33-36 | there are two fewer windows than readings, and window `i` sums readings `i`, `i + 1` and `i + 2` |
| SonarSweep.CountRisingShifted | day1/src/main.rs:29-31 | counting rising pairs of a sequence zipped with itself shifted by `gap` counts the positions `i` with `d[i] < d[i + gap]` |
| SonarSweep.CountRisingAll | day1/src/main.rs:29-31 | over all pairs of neighbours, the count is that of positions with `d[i] < d[i + 1]` |
| SonarSweep.Part1Counts | day1/src/main.rs:26-31 | part 1 is the number of readings larger than the previous one |
| SonarSweep.RisesWindows | day1/src/main.rs:34-40 | a window is larger than the previous one exactly when the reading it adds is larger than the one it drops |
| SonarSweep.Part2Counts | day1/src/main.rs:34-40 | part 2 is the number of positions `i` with `d[i] < d[i + 3]` |
| SonarSweep.Part2 | day1/src/main.rs:33-40 | part 2 counts at most one rise per window after the first; Part2Counts gives the value, the positions `i` with `d[i] < d[i + 3]` |
| Dive.ParseDirection | day2/src/main.rs:32-43 | `forward`, `down` and `up` are read as directions, and any other word is a direction error |
| Dive.DirectionRoundTrip | day2/src/main.rs:32-43 | every direction is read back from its word |
| Dive.ParseCommand | day2/src/main.rs:51-75 | a command is two space-separated pieces, a direction and a `u8`. A bad direction comes first and is a direction error; a missing value is a command error; a value that is not a `u8` is a value error; a third piece is a command error |
| Dive.CommandRoundTrip | day2/src/main.rs:51-75 | every command is read back from its line |
| Dive.ParseLines | day2/src/main.rs:107-115 | parsing succeeds exactly when every line parses, one command per line; otherwise the error is that of some line |
| Dive.MoveUp | day2/src/main.rs:84-90 | `up` lowers the aim by the value and keeps position and depth |
| Dive.MoveDown | day2/src/main.rs:91-97 | `down` raises the aim by the value and keeps position and depth |
| Dive.MoveForward | day2/src/main.rs:98-104 | `forward` advances by the value, dives by aim times value, and keeps the aim |
| Dive.RunTotals | day2/src/main.rs:129-148 | after the fold the aim is the sum of downs minus the sum of ups, which is part 1's depth, and the position is the sum of forwards |
| Dive.Answers | day2/src/main.rs:127-155 | part 1 is the sum of forwards times the sum of downs minus ups |
| Dive.Apply | day2/src/main.rs:135-139 | the fold's step changes the position only on `forward`, the aim by plus or minus the value on `down` and `up`, and the depth by aim times value only on `forward` |
| Dive.Run | day2/src/main.rs:129-140 | the fold from the submarine at the origin; its contract is RunTotals (aim is downs minus ups, position is the sum of forwards) |
| BinaryDiagnostic.Pow2 | day3/src/main.rs:18 | powers of two are positive |
| BinaryDiagnostic.Bit | day3/src/main.rs:18 | a bit is 0 or 1 |
| BinaryDiagnostic.OnesCount | day3/src/main.rs:18 | at most every report has a bit set |
| BinaryDiagnostic.Keep | day3/src/main.rs:20 | the filter keeps only reports that were there and have the chosen bit |
| BinaryDiagnostic.OxygenGeneratorRating | day3/src/main.rs:15-25 | the loop from bit `diag_len - 1` down returns the rating `RatingFrom` defines: the first single report left after a filter on the most common bit, ties to 1, and 0 if none is left alone |
| BinaryDiagnostic.Co2ScrubberRating | day3/src/main.rs:27-38 | the same with the least common bit, ties to 0 |
| BinaryDiagnostic.KeepSize | day3/src/main.rs:18-20 | filtering on a bit keeps exactly the reports that carry it |
| BinaryDiagnostic.CriterionShare | day3/src/main.rs:19-20 | the oxygen filter keeps at least half the reports and the CO2 filter at most half |
| BinaryDiagnostic.RatingIsReport | day3/src/main.rs:15-38 | a rating is 0 or one of the reports |
| BinaryDiagnostic.OxygenStaysNonEmpty | day3/src/main.rs:19-20 | the oxygen filter never empties a non-empty list |
| BinaryDiagnostic.Co2OfSingleReport | day3/src/main.rs:29-37 | a single report is filtered away before the size check, so its CO2 rating is 0 |
| BinaryDiagnostic.EmptyRating | day3/src/main.rs:27-38 | no reports give a CO2 rating of 0 |
| BinaryDiagnostic.MostCommon | day3/src/main.rs:54-65 | the string has one character per bit, most significant first, and it is `1` exactly when more than half of the reports have that bit set |
| BinaryDiagnostic.BinaryBound | day3/src/main.rs:69 | a binary string of `n` digits is worth less than two to the `n` |
| BinaryDiagnostic.BinaryBit | day3/src/main.rs:69 | bit `x` of a binary string's value is its character `x` places from the end |
| BinaryDiagnostic.Gamma | day3/src/main.rs:54-69 | gamma has `diag_len` bits, and bit `x` is set exactly when more than half the reports have bit `x` set |
| BinaryDiagnostic.ComplementValue | day3/src/main.rs:70 | the `k` low bits of `g` inverted are worth `2^k - 1 - g` |
| BinaryDiagnostic.EpsilonRate | day3/src/main.rs:70 | `!gamma & 0xfff` is 4095 minus gamma |
| BinaryDiagnostic.PowerConsumption | day3/src/main.rs:69-71 | part 1 is gamma times 4095 minus gamma |
| BinaryDiagnostic.LifeSupportRating | day3/src/main.rs:75-77 | part 2 is the oxygen rating times the CO2 rating, on 12-bit reports |
| GiantSquid.LineNumbers | day4/src/main.rs:16-18 | one number per whitespace-separated token, each the token read as a `u8` |
| GiantSquid.Accumulate | day4/src/main.rs:10-20 | the boards pushed, followed by the board still being read, hold every number of the lines in order |
| GiantSquid.ParseBoards | day4/src/main.rs:5-22 | as written: the numbers of the boards pushed are a prefix of every number after the first line, and all of them when the input ends with a blank line; `ParseDropsLastBoard` shows the last board lost otherwise |
| GiantSquid.ParseBoardsKeepingLast | day4/src/main.rs:5-22 | with the last board kept, the boards hold every number after the first line, in order |
| GiantSquid.ParseDropsLastBoard | day4/src/main.rs:10-21 | input without a trailing blank line: `parse` as written gives no board for `["", "7"]`, where the corrected parse gives `[[7]]` |
| GiantSquid.AccumulateOne | day4/src/main.rs:15-19 | a single non-empty line is still being read when the lines run out |
| GiantSquid.ParseDraws | day4/src/main.rs:34-37 | one draw per comma-separated piece, each below 256 |
| GiantSquid.ColumnCell | day4/src/main.rs:56-59 | cell `(i + 5k) % 25` is in the column of `i`, `k` rows further down, wrapping round |
| GiantSquid.ColumnCheck | day4/src/main.rs:56-59 | with cell `i` marked, the four cells the column check reads are marked exactly when the column of `i` is complete |
| GiantSquid.RowsCovered | day4/src/main.rs:56-59 | counting 0 to 4 rows down from a row, wrapping round, reaches every row |
| GiantSquid.RowCheck | day4/src/main.rs:54-64 | the five cells from `i - i % 5` are the row of `i` |
| GiantSquid.WinsIff | day4/src/main.rs:54-67 | with cell `i` marked, the check in `main` holds exactly when the row or the column of `i` is complete |
| GiantSquid.BoardStepFrom | day4/src/main.rs:47-87 | the marks stay 25 cells |
| GiantSquid.BoardStepMarks | day4/src/main.rs:47-87 | marking only adds marks, and only on cells holding the draw; a board that does not win has every cell holding the draw marked; a board that wins has a cell holding the draw whose row or column is complete |
| GiantSquid.SumsSplit | day4/src/main.rs:71-75 | the unmarked and the marked numbers together make up the board's sum |
| GiantSquid.NothingMarked | day4/src/main.rs:71-75 | a board with nothing marked has its whole sum unmarked |
| GiantSquid.DrawStepFrom | day4/src/main.rs:46-88 | after a draw there are still one set of marks per board, each of 25 cells |
| GiantSquid.DrawWinners | day4/src/main.rs:46-88 | the winners of a draw are distinct board indices in increasing order, extending those found before |
| GiantSquid.RemoveAt | day4/src/main.rs:95-96 | `Vec::remove` drops the element at the index and shifts the rest down by one |
| GiantSquid.Reverse | day4/src/main.rs:93 | the reversed list holds the same elements, backwards |
| GiantSquid.DescendingInRange | day4/src/main.rs:90-97 | removing the winners largest first, every index is still in range when it is removed |
| GiantSquid.LargestIndex | day4/src/main.rs:90-97 | an increasing list of indices below `n` leaves room for those after each one |
| GiantSquid.WithoutPrefix | day4/src/main.rs:90-97 | removing indices beyond a prefix leaves the prefix |
| GiantSquid.IndicesSnoc | day4/src/main.rs:90-97 | the winners of an increasing list are those of its front, all smaller than the last, plus the last |
| GiantSquid.RemoveWinners | day4/src/main.rs:90-97 | removing the winners from the right is in range at every step, and leaves exactly the boards that did not win, in order |
| GiantSquid.WithoutAll | day4/src/main.rs:90-97 | removing nothing leaves the boards |
| GiantSquid.WithoutRemoveLast | day4/src/main.rs:90-97 | removing the largest index first and then the others is leaving all of them out |
| GiantSquid.RemoveLastAtEnd | day4/src/main.rs:90-97 | removing the very last board is leaving it out |
| GiantSquid.RemoveBeforeEnd | day4/src/main.rs:90-97 | a board after the removed index stays last on both sides |
| GiantSquid.WithoutSnoc | day4/src/main.rs:90-97 | a board not left out stays at the end |
| GiantSquid.WithoutSame | day4/src/main.rs:90-97 | leaving out the same indices gives the same boards |
| GiantSquid.RemoveKeepsState | day4/src/main.rs:94-97 | removing boards and their marks together keeps one set of marks per board |
| GiantSquid.DrawKeepsPart1 | day4/src/main.rs:69-83 | once a board has won, later wins of the same draw do not change part 1 |
| GiantSquid.GameKeepsPart1 | day4/src/main.rs:44-98 | once fewer boards are left than started, nothing overwrites part 1: it is the score of the first win |
| GiantSquid.Play | day4/src/main.rs:40-98 | the loops over draws, boards and cells, and the removal of winners, compute the two answers `GameFrom` defines from unmarked boards |
| GiantSquid.MarkBoard | day4/src/main.rs:47-87 | the loop over a board's cells marks as `BoardStepFrom` defines, stopping at the first winning mark |
| GiantSquid.RemoveWinnersFrom | day4/src/main.rs:94-97 | the removal loop removes the listed indices from the boards and the marks in turn |
| HydrothermalVenture.Normalise | day5/src/main.rs:47-75 | a line with equal y is horizontal from the smaller x; otherwise one with equal x is vertical from the smaller y; any other line is diagonal from the smaller x. The end points are kept, possibly swapped |
| HydrothermalVenture.ParseLine | day5/src/main.rs:30-45 | the four fields of `x1,y1 -> x2,y2` are `u16` values |
| HydrothermalVenture.ParseLines | day5/src/main.rs:25-80 | one normalised line per input line, in order |
| HydrothermalVenture.DiagonalInGrid | day5/src/main.rs:113-119 | every row a diagonal line on the grid visits is on the grid |
| HydrothermalVenture.CoverageSplits | day5/src/main.rs:98-122 | what the lines add to a cell is the number of straight lines through it plus 0xff times the number of diagonal ones |
| HydrothermalVenture.MarkLine | day5/src/main.rs:99-121 | one line's loop adds its weight (1 straight, 0xff diagonal) to exactly the cells it crosses and leaves the other cells unchanged |
| HydrothermalVenture.MarkAll | day5/src/main.rs:98-122 | after the marking loop each cell holds its old value plus its coverage |
| HydrothermalVenture.DecodeCell | day5/src/main.rs:124-137 | while fewer than 0xff straight lines share a cell, `% 0xff` gives the straight lines and the part 2 map gives all lines through it |
| HydrothermalVenture.CountHits | day5/src/main.rs:124-139 | the count over the flattened grid is the number of cells passing the part's test |
| HydrothermalVenture.CountsOverlaps | day5/src/main.rs:124-139 | while no cell has 0xff or more straight lines, counting the encoded grid gives the points where at least two straight lines meet (part 1) and where at least two lines of any kind meet (part 2) |
| HydrothermalVenture.Answers | day5/src/main.rs:95-139 | a fresh grid is marked with the lines, each cell holds the straight lines plus 0xff times the diagonal ones, and both parts count that grid |
| HydrothermalVenture.Solve | day5/src/main.rs:82-143 | whenever fewer than 0xff straight lines meet at any point, the two answers are the overlap counts of the puzzle |
| Lanternfish.ParseTimers | day6/src/main.rs:6-15 | one `u8` timer per comma-separated piece of the first line; any bad piece fails |
| Lanternfish.SumUpdate | day6/src/main.rs:37 | adding `v` to one slot adds `v` to the total |
| Lanternfish.Histogram | day6/src/main.rs:34-38 | nine slots, slot `t` counting the fish whose timer is `t` |
| Lanternfish.SumNine | day6/src/main.rs:42 | the sum of the nine slots written out |
| Lanternfish.HistogramTotal | day6/src/main.rs:34-38 | every fish is counted exactly once |
| Lanternfish.CountTimers | day6/src/main.rs:34-38 | the counting loop `fish[x] += 1` fills a fresh array with the histogram of timers |
| Lanternfish.SlotMod | day6/src/main.rs:49 | slot `(d + t) % 9` depends only on `d % 9` |
| Lanternfish.RingDay | day6/src/main.rs:49 | on day `d` only slot `(d + 7) % 9` changes, gaining slot `d % 9` |
| Lanternfish.RingAfter | day6/src/main.rs:40-50 | the ring keeps nine slots |
| Lanternfish.Generation | day6/src/main.rs:44-49 | one day on a histogram by timer keeps nine slots |
| Lanternfish.RingDayTotal | day6/src/main.rs:49 | each day the total grows by the number of fish spawning, and never shrinks |
| Lanternfish.NextOffset | day6/src/main.rs:49 | the ring's offset moves on by one slot a day |
| Lanternfish.RingStepIsGeneration | day6/src/main.rs:44-49 | one day on the ring read from offset `k` is one generation of the histogram it stands for: timers drop by one, fish at 0 restart at 6 and add a newborn at 8 |
| Lanternfish.RingIsRotatedHistogram | day6/src/main.rs:40-50 | after `d` days slot `(d + t) % 9` holds the fish whose timer is `t`; the ring is the histogram, rotated |
| Lanternfish.RingTotal | day6/src/main.rs:40-52 | the ring's total is the number of fish of the generations |
| Lanternfish.RotationTotal | day6/src/main.rs:42 | a ring read from any offset has the total of the histogram it stands for |
| Lanternfish.Weights | day6/src/main.rs:40-50 | one entry per timer |
| Lanternfish.DotNine | day6/src/main.rs:40-50 | the weighted sum of nine slots written out |
| Lanternfish.DotIncrement | day6/src/main.rs:37 | one more fish with timer `x` adds what that fish becomes |
| Lanternfish.Generations | day6/src/main.rs:40-50 | `days` generations of a histogram keep nine slots; `RingIsRotatedHistogram` ties them to the ring the loop rotates |
| Lanternfish.GenerationsFirst | day6/src/main.rs:40-50 | the generations keep nine slots |
| Lanternfish.GenerationsCommute | day6/src/main.rs:40-50 | applying the first day first or the last day last gives the same generations |
| Lanternfish.GenerationsFirstLast | day6/src/main.rs:40-50 | one more day is one more generation at the end |
| Lanternfish.Shift | day6/src/main.rs:44-49 | the weights one day later keep nine slots |
| Lanternfish.DotGeneration | day6/src/main.rs:44-49 | weighting the next generation is weighting this one with the weights shifted by a day |
| Lanternfish.WeightedStep | day6/src/main.rs:44-49 | the fish of the next generation weighed over `days` are this generation's weighed over `days + 1` |
| Lanternfish.GenerationsTotal | day6/src/main.rs:40-52 | the total after `days` days counts the descendants of every initial fish |
| Lanternfish.HistogramWeighted | day6/src/main.rs:34-38 | weighing the histogram is summing the descendants of the listed fish |
| Lanternfish.RingCountsFish | day6/src/main.rs:34-52 | the ring's total after `days` days is the number of fish the input's fish have become, themselves included |
| Lanternfish.Total | day6/src/main.rs:42 | `fish.iter().sum()` is the sum of the slots |
| Lanternfish.Simulate | day6/src/main.rs:40-52 | the 256-day loop reads part 1 off after 80 days and part 2 after 256 |
| Lanternfish.Solve | day6/src/main.rs:26-52 | both answers count lanternfish: each input fish together with all of its descendants, after 80 and after 256 days |
| TreacheryOfWhales.ParseCrabs | day7/src/main.rs:6-15 | one `u16` position per comma-separated piece of the first line |
| TreacheryOfWhales.TriangleFormula | day7/src/main.rs:46-50 | the closed form `d * (d + 1) / 2` is `1 + 2 + ... + d` |
| TreacheryOfWhales.TriangleMonotone | day7/src/main.rs:46-50 | more steps never cost less |
| TreacheryOfWhales.CostRemove | day7/src/main.rs:31-34 | the total is one crab's fuel plus the others' |
| TreacheryOfWhales.CostPermutation | day7/src/main.rs:28 | what the crabs pay does not depend on their order, so sorting changes no cost |
| TreacheryOfWhales.CostBeyond | day7/src/main.rs:44-58 | moving past every crab only costs more |
| TreacheryOfWhales.FoldPositions | day7/src/main.rs:30-40 | the fold over candidate positions is no more than the start and than every candidate's linear cost, and it is the start or one of them |
| TreacheryOfWhales.FoldRange | day7/src/main.rs:44-58 | the fold over a range is no more than the start and than every triangular cost in the range, and it is the start or one of them |
| TreacheryOfWhales.SortKeepsCosts | day7/src/main.rs:28 | sorting keeps the crabs and what they pay |
| TreacheryOfWhales.Part1 | day7/src/main.rs:28-42 | part 1 is the least linear cost over the crabs' own positions |
| TreacheryOfWhales.Part2 | day7/src/main.rs:44-58 | part 2 as written is the least triangular cost over the positions below the furthest crab, or `u64::MAX` when that range is empty |
| TreacheryOfWhales.Furthest | day7/src/main.rs:44 | the last crab after sorting is the furthest one |
| TreacheryOfWhales.Part2Inclusive | day7/src/main.rs:44-58 | over `0..=last` the answer is the least triangular cost up to and including the furthest crab |
| TreacheryOfWhales.Part2InclusiveOptimal | day7/src/main.rs:44-58 | with the end included, no position at all is cheaper |
| TreacheryOfWhales.Part2MissesLast | day7/src/main.rs:44 | a single crab at 1: the search as written tries only 0 and answers 1, where the crab need not move |
| SevenSegment.CharToDigit | day8/src/main.rs:5-16 | letters `a` to `g` are wires 0 to 6, and each is the letter of its wire |
| SevenSegment.DigitCharRoundTrip | day8/src/main.rs:5-16 | every wire's letter reads back as that wire |
| SevenSegment.Indicator | day8/src/main.rs:32-38 | seven 0/1 entries, 1 exactly for the wires whose letter is in the word |
| SevenSegment.Indicators | day8/src/main.rs:30-39 | one pattern per word, in order |
| SevenSegment.ParseEntry | day8/src/main.rs:27-50 | the patterns come from the words before the `|`, the output from those after it |
| SevenSegment.SegmentLengthsAgree | day8/src/main.rs:56-68 | `SEGMENT_LENGTHS` counts the segments of each digit of `SEGMENTS` |
| SevenSegment.UniqueLengths | day8/src/main.rs:56 | only 1, 4, 7 and 8 have their numbers of segments |
| SevenSegment.RenderBelow | day8/src/main.rs:165-169 | the translation has seven entries |
| SevenSegment.Render | day8/src/main.rs:163-171 | the translation has seven entries |
| SevenSegment.RenderBelowAt | day8/src/main.rs:165-169 | after the first `k` segments, wire `p[n]` is lit exactly for the lit segments `n < k` |
| SevenSegment.RenderAt | day8/src/main.rs:163-171 | through a wiring, wire `p[n]` is lit exactly when segment `n` is |
| SevenSegment.Ones | day8/src/main.rs:18-20 | `count_digits`: the number of entries equal to 1; `OnesBelowCard` proves it the size of the set of lit wires |
| SevenSegment.OnesBelowCard | day8/src/main.rs:18-20 | counting the ones is the size of the set of lit wires |
| SevenSegment.InjectiveImage | day8/src/main.rs:163-171 | a one-to-one map keeps the size of a set |
| SevenSegment.RenderOnes | day8/src/main.rs:163-171 | a rendered digit lights as many wires as it has segments |
| SevenSegment.RenderInjective | day8/src/main.rs:161-185 | through any wiring, different digits look different |
| SevenSegment.Shown | day8/src/main.rs:162-172 | a digit shown through a mapping has seven entries |
| SevenSegment.ShownAt | day8/src/main.rs:162-172 | through a wiring each wire shows exactly one segment of the digit |
| SevenSegment.FirstWithOnes | day8/src/main.rs:79-88 | `filter(..).next()` finds the first pattern lighting `k` wires, or there is none |
| SevenSegment.FindSix | day8/src/main.rs:110-146 | `filter(count == 6).find(test)` finds the first six-wire pattern that passes, or there is none |
| SevenSegment.FirstDifference | day8/src/main.rs:98-100 | the first wire where the two patterns differ, or none among the seven |
| SevenSegment.FirstZero | day8/src/main.rs:123 | the first dark wire of the pattern, or none |
| SevenSegment.FirstMissing | day8/src/main.rs:156 | the first wire not yet among the placed segments, or none |
| SevenSegment.DiffersPair | day8/src/main.rs:90-106 | when two patterns differ on exactly two wires, the pushes collect those two wires in order |
| SevenSegment.EasyDigit | day8/src/main.rs:79-88 | on scrambled patterns, the first one with 1's, 4's, 7's or 8's number of segments is that digit |
| SevenSegment.SixLit | day8/src/main.rs:108-110 | a pattern with six lit wires is 0, 6 or 9 |
| SevenSegment.SixSegmentFind | day8/src/main.rs:110-146 | the six-segment search that only the given digit passes finds it |
| SevenSegment.WireOf | day8/src/main.rs:70-159 | every wire carries exactly one segment |
| SevenSegment.ShownLit | day8/src/main.rs:162-172 | wire `p[n]` of a shown digit is lit exactly when the digit has segment `n` |
| SevenSegment.PairOfWires | day8/src/main.rs:90-106 | differing at the wires of two segments only, the pushes collect those two wires in order |
| SevenSegment.CorF | day8/src/main.rs:90-94 | `c_or_f` holds the wires of segments `c` and `f`, in order |
| SevenSegment.BorD | day8/src/main.rs:101-106 | `b_or_d` holds the wires of segments `b` and `d`, in order |
| SevenSegment.TopSegment | day8/src/main.rs:96-100 | the one wire 7 lights beyond 1 is that of segment `a` |
| SevenSegment.SoleDark | day8/src/main.rs:123-148 | the dark wire of 9, 0 and 6 is that of `e`, `d` and `c` |
| SevenSegment.Placed | day8/src/main.rs:155-156 | with `a` to `f` placed, only `g`'s wire is missing from the segments |
| SevenSegment.LastSegment | day8/src/main.rs:155-156 | the first wire not among the placed segments is `g`'s |
| SevenSegment.SevenEntries | day8/src/main.rs:70-159 | a seven-entry sequence written out |
| SevenSegment.SortedPairs | day8/src/main.rs:90-106 | the two pairs pushed are the candidates for `c`, `f` and for `b`, `d` |
| SevenSegment.OtherOfPair | day8/src/main.rs:134-153 | of two candidates, the one that is not the other is picked |
| SevenSegment.FindNine | day8/src/main.rs:108-121 | the six-segment pattern lighting all of `b`, `c`, `d` and `f` is 9 |
| SevenSegment.FindZero | day8/src/main.rs:125-131 | the six-segment pattern lighting only one of `b`, `d` is 0 |
| SevenSegment.FindSixDigit | day8/src/main.rs:140-146 | the six-segment pattern lighting only one of `c`, `f` is 6 |
| SevenSegment.ScrambledWidths | day8/src/main.rs:30-39 | every scrambled pattern has seven entries |
| SevenSegment.Differences | day8/src/main.rs:90-106 | the pushing loop collects the wires where the two patterns differ, in order |
| SevenSegment.FillEasy | day8/src/main.rs:79-88 | the first loop fills in 1, 4, 7 and 8 as they show through the wiring |
| SevenSegment.PlaceSegments | day8/src/main.rs:122-158 | with 9, 0 and 6 in hand, the rest of the segments are the wiring |
| SevenSegment.EasyClues | day8/src/main.rs:70-106 | the first half finds the candidate pairs and segment `a` |
| SevenSegment.DeduceSegments | day8/src/main.rs:70-159 | when the ten patterns are the digits shown through some wiring, the segments deduced are that wiring |
| SevenSegment.Translate | day8/src/main.rs:163-171 | a digit drawn through the mapping lights `mapping[n]` for every segment `n` |
| SevenSegment.TranslatedSegments | day8/src/main.rs:162-172 | the table holds the ten digits drawn through the mapping |
| SevenSegment.ShownInjective | day8/src/main.rs:174-184 | through a wiring a pattern is at most one digit |
| SevenSegment.FirstMatch | day8/src/main.rs:177-182 | `enumerate().find` gives the first digit drawn like the pattern, or none |
| SevenSegment.TranslateOutput | day8/src/main.rs:161-185 | every output pattern becomes the first digit drawn like it; through a true wiring that is the only such digit |
| SevenSegment.DigitString | day8/src/main.rs:189-193 | one character per digit |
| SevenSegment.DigitStringValue | day8/src/main.rs:187-196 | the joined digits are a decimal numeral worth their positional value |
| SevenSegment.DigitsToValue | day8/src/main.rs:187-196 | the digits parsed back as a `u16` are their positional value |
| SevenSegment.DigitsToValueDefined | day8/src/main.rs:187-196 | the `unwrap` fails exactly for no digits or a value beyond `u16` |
| SevenSegment.EasyByLength | day8/src/main.rs:215-224 | counting the translated 1, 4, 7 and 8 is counting the output patterns lighting 2, 3, 4 or 7 wires |
| SevenSegment.Solve | day8/src/main.rs:197-234 | when every entry is scrambled by some wiring, part 1 counts the 1s, 4s, 7s and 8s shown and part 2 adds up the displayed values |
| SmokeBasin.ParseRow | day9/src/main.rs:10-12 | one height per character, each the digit's value, at most 9 |
| SmokeBasin.Parse | day9/src/main.rs:6-17 | one row per line, in order |
| SmokeBasin.GetAdjacent | day9/src/main.rs:34-75 | every neighbour on the map is read with its true height, off the map it reads 9, and a direction is marked done exactly when it reads 9 |
| SmokeBasin.IsSmallerThanAdjacent | day9/src/main.rs:77-79 | `is_smaller_than_adjacent`: below all four recorded neighbour heights; `SmallerIffLow` proves it holds exactly at low points |
| SmokeBasin.SmallerIffLow | day9/src/main.rs:77-79 | comparing with the sentinel 9s finds exactly the points lower than every neighbour on the map and lower than 9 |
| SmokeBasin.ScanStep | day9/src/main.rs:167-180 | scanning a cell pushes it exactly when it is a low point |
| SmokeBasin.ScanPush | day9/src/main.rs:167-180 | pushing a low point keeps the scan's list complete, ordered and summed |
| SmokeBasin.ScanRowDone | day9/src/main.rs:167-180 | the end of a row is the start of the next |
| SmokeBasin.LowPoints | day9/src/main.rs:167-185 | the scan lists every low point as `(height, x, y)`, once and in row-major order, and its risk sum is part 1 |
| SmokeBasin.ScanCell | day9/src/main.rs:167-180 | one cell of the scan is pushed exactly when it is a low point, keeping the scan invariant |
| SmokeBasin.ScanDone | day9/src/main.rs:167-185 | after the last row the scan invariant gives every low point, once, in order, with part 1's risk |
| SmokeBasin.Check | day9/src/main.rs:107-122 | setting one `checked_*` flag marks that direction explored and leaves the other flags and the four heights unchanged |
| SmokeBasin.CheckShrinksPending | day9/src/main.rs:106-123 | marking an open direction done leaves fewer directions to explore |
| SmokeBasin.OpenDirection | day9/src/main.rs:106-123 | an open direction of an explored cell leads to a cell on the map that is not a 9 |
| SmokeBasin.StepToRecorded | day9/src/main.rs:141-143 | moving to a recorded cell keeps the exploration invariant |
| SmokeBasin.StepToNew | day9/src/main.rs:144-147 | recording a new cell as `get_adjacent` describes it keeps the exploration invariant |
| SmokeBasin.ExploredClosed | day9/src/main.rs:124-138 | with no direction left open, no recorded cell has a non-9 neighbour outside the record |
| SmokeBasin.BuildBasin | day9/src/main.rs:81-151 | the cells recorded include the low point, lie on the map, are not 9 except perhaps the start, and are closed: no recorded cell has a non-9 neighbour outside them |
| SmokeBasin.Reverse | day9/src/main.rs:195 | the reversed list has the same elements, backwards |
| SmokeBasin.Descending | day9/src/main.rs:192-195 | sorting and then reversing puts the sizes in descending order and keeps them all |
| SmokeBasin.ReverseMultiset | day9/src/main.rs:195 | reversing keeps the elements |
| SmokeBasin.Sizes | day9/src/main.rs:187-190 | one size per basin, the number of its cells |
| SmokeBasin.AllBasins | day9/src/main.rs:187-190 | one basin per low point, each as `build_basin` promises it, and the recorded sizes are the basins' sizes |
| SmokeBasin.Solve | day9/src/main.rs:153-203 | part 1 is the map's total risk; each low point gets a basin as `build_basin` promises it; part 2 is the product of the three largest sizes |
| Sorting.SortedCons | day10/src/main.rs:51 | a value no larger than the head of a sorted list may go in front |
| Sorting.Insert | day10/src/main.rs:51 | inserting into a sorted list keeps it sorted and adds exactly the one element, which comes first when it is no larger than the old head |
| Sorting.Sort | day10/src/main.rs:51 | `sort()` gives the same elements in ascending order |
| Sorting.SortedLast | day7/src/main.rs:44 | the last entry of a sorted arrangement of a list is the largest of the list and belongs to it |
| Sorting.LastIsMax | day7/src/main.rs:44 | after sorting, the last entry is the largest and is one of the crabs |
| SyntaxScoring.CloserOf | day10/src/main.rs:17 | every opener's partner in the `map` table is a closer |
| SyntaxScoring.IncompletePoints | day10/src/main.rs:19 | completion points are 1 to 4 |
| SyntaxScoring.Scan | day10/src/main.rs:26-37 | a line left open leaves only openers on the stack, and a corrupted line stops at a closer |
| SyntaxScoring.CheckLine | day10/src/main.rs:24-37 | the loop finds a line corrupted exactly when the scan stops at a bad closer, scores that closer, and otherwise leaves the scan's stack of openers |
| SyntaxScoring.Completion | day10/src/main.rs:41-46 | one closer per open bracket |
| SyntaxScoring.Complete | day10/src/main.rs:39-46 | the `pop` loop builds the completion, closing the brackets from the top of the stack down, and scores it in base 5 |
| SyntaxScoring.ScanAppend | day10/src/main.rs:26-37 | a line that stays open leaves the rest of the input to start from its stack |
| SyntaxScoring.CompletionCloses | day10/src/main.rs:39-46 | the completion closes every open bracket, leaving nothing open |
| SyntaxScoring.CompletedLine | day10/src/main.rs:38-48 | an incomplete line followed by its completion leaves nothing open |
| SyntaxScoring.ScoreInjective | day10/src/main.rs:44-45 | scores are base-5 numbers with digits 1 to 4, so different completions score differently |
| SyntaxScoring.DivideByFive | day10/src/main.rs:44-45 | the last base-5 digit and the rest are read back from a score |
| SyntaxScoring.Solve | day10/src/main.rs:20-54 | part 1 totals the points of the first bad closer of every corrupted line; part 2 is the middle entry of the sorted completion scores of the other lines |
| DumboOctopus.DigitRow | day11/src/main.rs:9-11 | one level per character, each the digit's value |
| DumboOctopus.Parse | day11/src/main.rs:5-17 | every level is at most 9 |
| DumboOctopus.ParseGrid | day11/src/main.rs:5-20 | ten lines of ten digits give the row-major 10 x 10 grid `get_adjacents` assumes |
| DumboOctopus.PushedIncreasing | day11/src/main.rs:20-64 | the pushes come in increasing order, at most one per direction |
| DumboOctopus.PushedMembers | day11/src/main.rs:20-64 | a cell is pushed exactly when it lies in one of the first `n` directions whose guard holds |
| DumboOctopus.AdjacentDirection | day11/src/main.rs:20-64 | the guards select exactly the eight neighbours on the grid, without wrapping across rows |
| DumboOctopus.GetAdjacents | day11/src/main.rs:20-64 | the list holds exactly the neighbours of `pos` on the 10 x 10 grid, each once, at most eight |
| DumboOctopus.PushedAdjacent | day11/src/main.rs:20-64 | all eight directions give exactly the neighbours, each once |
| DumboOctopus.NeighboursAppend | day11/src/main.rs:69-76 | counting neighbours over two parts of the flashes adds up |
| DumboOctopus.RaiseOne | day11/src/main.rs:70 | raising one more neighbour records it as raised |
| DumboOctopus.AfterNested | day11/src/main.rs:72-75 | a nested flash composes with what was raised before it |
| DumboOctopus.HotAfterNested | day11/src/main.rs:72-75 | after a nested flash every hot cell that has not flashed was already hot at the start |
| DumboOctopus.ColdAfterNested | day11/src/main.rs:72-75 | the cells flashed after a nested flash were all below 10 at the start |
| DumboOctopus.CascadeCompose | day11/src/main.rs:72-75 | flashes in cascade order after some earlier flashes are in cascade order from before those flashes |
| DumboOctopus.CascadeNested | day11/src/main.rs:70-75 | the flashes of a nested `flash` continue the cascade of the enclosing `flash(pos)` |
| DumboOctopus.FlashReady | day11/src/main.rs:70-74 | a neighbour raised to exactly 10 has not flashed yet, and fewer cells are left unflashed, so the recursion ends |
| DumboOctopus.FlashStart | day11/src/main.rs:66-69 | before the loop only `pos` has flashed, it is at 10 or more, and nothing has been raised |
| DumboOctopus.FlashDone | day11/src/main.rs:69-77 | after the loop every neighbour of `pos` has gone up once for `pos` and once per later flash |
| DumboOctopus.FlashQuiet | day11/src/main.rs:70-72 | raising a neighbour that does not reach 10 keeps the loop's invariant |
| DumboOctopus.FlashNested | day11/src/main.rs:70-75 | raising a neighbour to 10 and its nested flash keep the loop's invariant |
| DumboOctopus.Flash | day11/src/main.rs:66-77 | `flash(pos)` adds `pos` to the flashes, then every cell goes up once per neighbour among the new flashes; a neighbour flashes in turn exactly when it reaches 10, so each cell flashes at most once; each new flash reached 10 from the levels at the call with the help of the new flashes before it alone |
| DumboOctopus.TenAt | day11/src/main.rs:82-87 | the flashers are exactly the cells at 10, each once |
| DumboOctopus.ZerosCount | day11/src/main.rs:113 | counting zeros counts the cells at 0 |
| DumboOctopus.DistinctCard | day11/src/main.rs:82-91 | a list without repeats has as many members as entries |
| DumboOctopus.PendingStep | day11/src/main.rs:89-91 | one top-level flash keeps the invariant between flashes |
| DumboOctopus.PendingDone | day11/src/main.rs:93-96 | when every flasher is done, resetting the flashed cells gives the step's outcome |
| DumboOctopus.ProcessStep | day11/src/main.rs:79-97 | a step ends as `StepOutcome` states: a cell flashes exactly when its level plus one plus its flashing neighbours reaches 10, and it then ends at 0; every other cell ends at that sum; the flashes come in cascade order, each reaching 10 with the flashes before it alone |
| DumboOctopus.NeighboursRemove | day11/src/main.rs:69-70 | taking one flash out of a list lowers a cell's count by one exactly when that flash is its neighbour |
| DumboOctopus.NeighboursMono | day11/src/main.rs:69-70 | more flashes raise every cell at least as much |
| DumboOctopus.CascadeWithin | day11/src/main.rs:89-91 | every flash of a cascade lies in each set of cells closed under the flash rule |
| DumboOctopus.FlashesLeast | day11/src/main.rs:79-97 | the flashes of a step are the least set closed under the flash rule: they lie in every list of distinct cells that holds each cell the list itself would raise to 10 |
| DumboOctopus.StepDetermined | day11/src/main.rs:79-97 | any two outcomes of a step from the same levels are equal and have as many flashes |
| DumboOctopus.TrajectoryDetermined | day11/src/main.rs:111-122 | two trajectories from the same levels agree step by step, so the answers of `Solve` depend on the input alone |
| DumboOctopus.StepZeros | day11/src/main.rs:113 | after a step as many cells are at 0 as flashed |
| DumboOctopus.TrajectoryZeros | day11/src/main.rs:111-114 | after every step of a trajectory as many cells are at 0 as flashed in it |
| DumboOctopus.ZerosAreFlashes | day11/src/main.rs:111-114 | counting the zeros after each step counts the flashes |
| DumboOctopus.Solve | day11/src/main.rs:99-127 | part 1 is the number of flashes in the first 100 steps; part 2 is the first step from 100 on after which every level is 0, or `None` within the fuel |
| DumboOctopus.Extend | day11/src/main.rs:111-122 | one more step extends the trajectory |
| DumboOctopus.SameTotal | day11/src/main.rs:111-114 | the zeros of the first `n` steps do not depend on later steps |
| DumboOctopus.SameFlashTotal | day11/src/main.rs:111-114 | the flashes of the first `n` steps do not depend on later steps |
| PassagePathing.AddEdge | day12/src/main.rs:10-19 | one line `a-b` pushes `b` onto `a`'s list and `a` onto `b`'s, and the graph still holds exactly the edges read so far |
| PassagePathing.AddEnds | day12/src/main.rs:11-18 | pushing both ends of an edge updates every cave's list as the edge requires |
| PassagePathing.AddEndsAt | day12/src/main.rs:11-18 | one cave's list after both pushes: created by `or_insert` if missing, then extended by that cave's ends of the edge |
| PassagePathing.NoEdge | day12/src/main.rs:10 | a line without `-` leaves the graph as it is |
| PassagePathing.Parse | day12/src/main.rs:6-23 | each cave's list holds its neighbours in the order the lines give them, and only caves named on some edge are keys |
| PassagePathing.NeighboursSymmetric | day12/src/main.rs:11-18 | `b` is among `a`'s neighbours exactly when `a` is among `b`'s |
| PassagePathing.EdgeEndsSymmetric | day12/src/main.rs:11-18 | one line makes `b` a neighbour of `a` exactly when it makes `a` one of `b` |
| PassagePathing.ParsedClosed | day12/src/main.rs:6-23 | every listed neighbour is itself a key, so `graph[node]` in `explore` never misses |
| PassagePathing.IsLower | day12/src/main.rs:25-27 | `is_lower` holds exactly when every character of the name is one of `a` to `z`: the count of lowercase characters is compared with the byte length, so a character outside ASCII always fails it |
| PassagePathing.LowerCount | day12/src/main.rs:25-27 | the count of lowercase characters is at most the length, and equals it exactly when every character is lowercase |
| PassagePathing.FollowsStep | day12/src/main.rs:41-56 | the paths going on through an allowed neighbour `node` are exactly the paths from `path + [node]`, and the second small visit sets `doubled` |
| PassagePathing.FollowsBlocked | day12/src/main.rs:43-46 | no path goes on through a small cave already seen once the double is spent, and none goes back to `start` |
| PassagePathing.Explore | day12/src/main.rs:29-60 | when it finishes, the result holds exactly the walks that extend `path` through neighbours, stop at the first `end` and revisit at most one small cave (none if `doubled`) |
| PassagePathing.SmallCavesOnce | day12/src/main.rs:75 | a part 1 path enters every small cave at most once |
| PassagePathing.SmallCavesOnceFrom | day12/src/main.rs:43-46 | from position `k` on, a walk with the double spent enters no small cave twice |
| PassagePathing.OneRepeatFrom | day12/src/main.rs:43-50 | from position `k` on, a walk repeats at most one small cave (none if the double is spent) and never re-enters `start` |
| PassagePathing.OneRepeat | day12/src/main.rs:79 | a part 2 path repeats at most one small cave and never goes back to `start` |
| PassagePathing.Solve | day12/src/main.rs:62-84 | the answers count the paths from `start` to `end` under the rules of each part, over the graph `parse` builds |
| TransparentOrigami.ParseCoord | day13/src/main.rs:29-30 | a line yields a dot only when both halves around the first comma parse as `usize`, so both coordinates are below 2^64 |
| TransparentOrigami.ParseCoordDigits | day13/src/main.rs:29-30 | a printed dot `x,y` parses back to `(x, y)` |
| TransparentOrigami.NoCommaInDigits | day13/src/main.rs:29 | a printed number holds no comma, so `split_once(",")` splits at the separator |
| TransparentOrigami.ParseCoords | day13/src/main.rs:19-34 | the page is `height` rows of `width` cells, and a cell holds a dot exactly when a well-formed line names it |
| TransparentOrigami.ParseFolds | day13/src/main.rs:36-50 | the folds of the lines that parse, at most one per line |
| TransparentOrigami.ParseFold | day13/src/main.rs:39-48 | one line through the three `filter_map` stages; `ParseFoldLine` and `ParseFoldLineOf` state which lines give which fold |
| TransparentOrigami.ParseFoldLine | day13/src/main.rs:39-48 | `fold along <axis>=<n>` gives a vertical fold at `n` for axis `x` and a horizontal one for any other axis |
| TransparentOrigami.ParseFoldLines | day13/src/main.rs:36-50 | printing a list of folds and parsing it back gives the list |
| TransparentOrigami.ParseFoldLineOf | day13/src/main.rs:39-48 | one printed fold parses back to itself |
| TransparentOrigami.FoldLinesSnoc | day13/src/main.rs:36-50 | printing one more fold adds its line at the end |
| TransparentOrigami.ParseFoldsSnoc | day13/src/main.rs:36-50 | a last line that parses to a fold adds that fold at the end of `parse_folds`' result |
| TransparentOrigami.FoldLeft | day13/src/main.rs:52-63 | the new page is `x_size` wide and as tall as before, and each cell is a dot when it or its mirror image at `2 * x_size - x` is |
| TransparentOrigami.FoldUp | day13/src/main.rs:65-76 | the new page is `y_size` tall and as wide as the first row, and each cell is a dot when it or its mirror image at `2 * y_size - y` is |
| TransparentOrigami.Apply | day13/src/main.rs:10-17 | a fold along `x` folds left and one along `y` folds up |
| TransparentOrigami.FoldedUnique | day13/src/main.rs:52-76 | a fold has exactly one outcome |
| TransparentOrigami.FoldReflects | day13/src/main.rs:52-76 | on a page centred on the line, the folded dots are the dots reflected onto the near side of the line, and the line itself is dropped |
| TransparentOrigami.LeftKeeps | day13/src/main.rs:58 | a dot off the line of a vertical fold lands at its image |
| TransparentOrigami.UpKeeps | day13/src/main.rs:71 | a dot off the line of a horizontal fold lands at its image |
| TransparentOrigami.LeftComesFrom | day13/src/main.rs:58 | every dot after a vertical fold is the image of a dot before it |
| TransparentOrigami.UpComesFrom | day13/src/main.rs:71 | every dot after a horizontal fold is the image of a dot before it |
| TransparentOrigami.FoldIgnoresLine | day13/src/main.rs:52-76 | two pages that differ only on the fold line fold to the same page |
| TransparentOrigami.FirstAlong | day13/src/main.rs:92-109 | `find_map` finds the first fold along the axis, or reports that there is none |
| TransparentOrigami.FoldRect | day13/src/main.rs:52-76 | a fold that fits stays in bounds and leaves a rectangle of the folded size |
| TransparentOrigami.PageSize | day13/src/main.rs:92-109 | each page dimension, `2n + 1`, is odd |
| TransparentOrigami.CountRowDots | day13/src/main.rs:115-120 | counting a row's cells that hold a dot gives the number of dots in it |
| TransparentOrigami.CountDotsIsDots | day13/src/main.rs:115-120 | part 1's count is the number of dots on the page |
| TransparentOrigami.FoldAll | day13/src/main.rs:124 | folding the page by every fold in turn: each page in the chain is the previous one folded by the next fold, and the result is the last |
| TransparentOrigami.Solve | day13/src/main.rs:78-135 | the page is sized `2n + 1` from the first fold along each axis and holds exactly the listed dots; part 1 counts the dots after the first fold, and part 2 is the page after every fold in turn |
| ExtendedPolymerization.Add | day14/src/main.rs:34-36 | `*entry(k).or_default() += d` creates the key at zero if missing, adds `d` to it and leaves every other entry alone |
| ExtendedPolymerization.RuleOf | day14/src/main.rs:13-18 | the first two letters form the pair, and it splits into the pairs with the third letter inserted between them |
| ExtendedPolymerization.ParseInsertion | day14/src/main.rs:12-18 | the rule a line gives splits its pair in two through the inserted letter; `ParseInsertionLine` gives the rule of `AB -> C` |
| ExtendedPolymerization.ParseInsertionLine | day14/src/main.rs:12-18 | the line `AB -> C` gives the rule splitting `AB` into `AC` and `CB` |
| ExtendedPolymerization.RulesOf | day14/src/main.rs:19 | collecting gives every entry's pair a rule, and every rule splits its pair |
| ExtendedPolymerization.RulesOfLast | day14/src/main.rs:19 | every rule in the map is the one of the last line for its pair |
| ExtendedPolymerization.ParseInsertions | day14/src/main.rs:7-22 | every line's pair has a rule, and every rule splits its pair |
| ExtendedPolymerization.Grow | day14/src/main.rs:6 | one step of insertion: a polymer of `n` letters grows to `2n - 1` and keeps its first and last letters |
| ExtendedPolymerization.PairCountsTotal | day14/src/main.rs:91-98 | a polymer of `n` letters has `n - 1` pairs of neighbours |
| ExtendedPolymerization.TotalUpdate | day14/src/main.rs:40 | setting one entry changes the total by the change in that entry |
| ExtendedPolymerization.ProgressStart | day14/src/main.rs:28 | the copy of the counts meets the loop's bookkeeping with nothing processed |
| ExtendedPolymerization.ProgressStep | day14/src/main.rs:30-41 | the loop body (add the count to both pairs the pair splits into, subtract it from the pair) keeps the bookkeeping |
| ExtendedPolymerization.TotalsStep | day14/src/main.rs:34-40 | each processed pair adds its count once to the total |
| ExtendedPolymerization.KeysStep | day14/src/main.rs:34-40 | the keys after a processed pair are the counted pairs and what the processed pairs split into |
| ExtendedPolymerization.CountsStep | day14/src/main.rs:34-40 | each pair keeps its own count less what was taken from it, plus what the processed pairs split into it |
| ExtendedPolymerization.ProgressDone | day14/src/main.rs:30-43 | after the loop the keys are `Next`'s and every pair holds the counts of the pairs that split into it |
| ExtendedPolymerization.IsNext | day14/src/main.rs:30-43 | a map with `Next`'s keys and sums is `Next` |
| ExtendedPolymerization.TotalDone | day14/src/main.rs:30-43 | after the loop the number of pairs has doubled |
| ExtendedPolymerization.ProcessInsertions | day14/src/main.rs:24-44 | the result is `Next`: every pair's count moves to the two pairs it splits into, the subtraction never underflows, and the total doubles |
| ExtendedPolymerization.NextGrows | day14/src/main.rs:24-44 | on the pair counts of a polymer, a step gives the pair counts of the grown polymer |
| ExtendedPolymerization.GrowLast | day14/src/main.rs:31-36 | growing a polymer one letter longer adds the inserted letter and the new last letter |
| ExtendedPolymerization.PairCountsSnoc | day14/src/main.rs:91-98 | one more letter adds one window |
| ExtendedPolymerization.LetterShare | day14/src/main.rs:58-66 | each letter inside the polymer is in two pairs, the first and the last in one |
| ExtendedPolymerization.CorrectedCounts | day14/src/main.rs:46-69 | with the ends counted as missing half a pair each, every letter's count is its number of occurrences |
| ExtendedPolymerization.WrittenCounts | day14/src/main.rs:46-69 | as written, a letter that both starts and ends the polymer is counted once too often, every other letter correctly |
| ExtendedPolymerization.CountLettersOverCounts | day14/src/main.rs:59-66 | the template `AA` holds two `A`s but `count_letters` reports three |
| ExtendedPolymerization.TallyStep | day14/src/main.rs:53-56 | each pair handed to the letter loop adds its count to both its letters |
| ExtendedPolymerization.Halved | day14/src/main.rs:59-62 | halving the letter shares gives half of each letter's weighted pair count |
| ExtendedPolymerization.IsWritten | day14/src/main.rs:64-68 | the halves with one added for the first and one for the last letter are `count_letters`' result |
| ExtendedPolymerization.CountLetters | day14/src/main.rs:46-69 | the result is each letter's pair share, halved, plus one if it is the first letter and one if it is the last |
| ExtendedPolymerization.WrittenGet | day14/src/main.rs:46-69 | every entry of `count_letters`' result, for letters with and without pairs |
| ExtendedPolymerization.WrittenKeys | day14/src/main.rs:46-69 | the result holds the letters of the pairs and the two end letters |
| ExtendedPolymerization.InitialCounts | day14/src/main.rs:89-98 | the initial counts are the template's windows of two letters, `n - 1` of them |
| ExtendedPolymerization.AfterLast | day14/src/main.rs:100-102 | `k + 1` steps are `k` steps and then one more |
| ExtendedPolymerization.AfterIsPolymer | day14/src/main.rs:100-111 | counts that agree with a polymer's pairs still agree with the grown polymer's after `k` steps |
| ExtendedPolymerization.AfterAfter | day14/src/main.rs:100-111 | ten steps and then thirty more are forty steps |
| ExtendedPolymerization.Generations | day14/src/main.rs:100-102 | the fold over `k` steps gives the counts after `k` steps |
| ExtendedPolymerization.ExtremesUnique | day14/src/main.rs:108 | the most and the least common counts are each determined by the map |
| ExtendedPolymerization.Extremes | day14/src/main.rs:108 | `max` and `min` of a non-empty map's values are its largest and smallest values |
| ExtendedPolymerization.Spread | day14/src/main.rs:104-109 | the most minus the least common count of `count_letters`' result |
| ExtendedPolymerization.PolymerEnds | day14/src/main.rs:84-85 | growing keeps the first and the last letter, so the template's ends stay right for every step |
| ExtendedPolymerization.PolymerLetters | day14/src/main.rs:71-118 | after `k` steps `count_letters` reports each letter's occurrences in the grown polymer, one more for a letter that both starts and ends the template |
| ExtendedPolymerization.Solve | day14/src/main.rs:71-121 | part 1 and part 2 are the spreads of `count_letters` after 10 and after 40 steps |
| Chiton.LineDigits | day15/src/main.rs:8 | skipping non-digits keeps at most the line's length of digits, each at most 9, and a line of digits gives each digit's value in order |
| Chiton.Parse | day15/src/main.rs:5-13 | every risk is a digit, at most 9 |
| Chiton.ParseLength | day15/src/main.rs:6-10 | lines of `side` digits each give a grid of `lines * side` cells |
| Chiton.ParseCell | day15/src/main.rs:6-10 | the digit at row `y`, column `x` of the text is the cell at `y * side + x` of the flattened grid |
| Chiton.RowMonotone | day15/src/main.rs:16-36 | rows of the flattened grid come one after the other |
| Chiton.IndexBelow | day15/src/main.rs:16-36 | a cell lies before row `h` exactly when its row is before `h` |
| Chiton.IndexInjective | day15/src/main.rs:16-36 | distinct rows and columns give distinct indices |
| Chiton.Coordinates | day15/src/main.rs:16-36 | every index of the grid is the cell at row `p / side`, column `p % side` |
| Chiton.CoordinatesOf | day15/src/main.rs:16-36 | the row and column of a cell are recovered by division and remainder |
| Chiton.Neighbours | day15/src/main.rs:16-36 | `get_neighbours` lists exactly the cells directly right of, below, above and left of `pos` inside the grid, without wrapping across rows |
| Chiton.NeighbourTests | day15/src/main.rs:19-33 | each of the four tests on the index holds exactly when the step stays inside the grid, and then gives that neighbour's index |
| Chiton.RightTest | day15/src/main.rs:19-21 | `(pos + 1) % side > 0` holds exactly when the cell is not in the last column |
| Chiton.DownTest | day15/src/main.rs:23-25 | `pos < size - side` holds exactly when the cell is not in the last row |
| Chiton.UpTest | day15/src/main.rs:27-29 | `pos >= side` holds exactly when the cell is not in the first row |
| Chiton.NeighboursAre | day15/src/main.rs:16-36 | the four optional pushes together are the adjacent cells |
| Chiton.BesideOnly | day15/src/main.rs:16-36 | adjacency seen from a cell's own row and column |
| Chiton.BesideBelow | day15/src/main.rs:16-36 | a cell beside a cell of the grid is inside the grid |
| Chiton.AdjacentSymmetric | day15/src/main.rs:16-36 | adjacency is symmetric |
| Chiton.NeighboursSymmetric | day15/src/main.rs:16-36 | `q` is a neighbour of `p` exactly when `p` is a neighbour of `q` |
| Chiton.CostExtend | day15/src/main.rs:78-79 | a walk one cell longer costs that cell's risk more |
| Chiton.RealisedStep | day15/src/main.rs:78-80 | lowering a neighbour's distance through `index` keeps every distance the cost of a recorded walk |
| Chiton.RouteExtend | day15/src/main.rs:78-79 | the walk to `index` followed by the step to `pos` is a walk to `pos` costing the new distance |
| Chiton.PathExtend | day15/src/main.rs:77 | a walk followed by a step to a neighbour is a walk to that neighbour |
| Chiton.RoutedKept | day15/src/main.rs:78-80 | cells other than `pos` keep their recorded walks |
| Chiton.Lowest | day15/src/main.rs:72-84 | once every neighbour is relaxed, no walk to a cell costs less than its distance |
| Chiton.Relax | day15/src/main.rs:78-81 | one relaxation lowers `pos` to the way through `index` when that is cheaper, changes no other cell, and lowers the sum of distances when it changes anything |
| Chiton.RelaxNeighbours | day15/src/main.rs:77-82 | after relaxing every neighbour of `index`, none of them can be reached more cheaply through it |
| Chiton.SettledStep | day15/src/main.rs:77-82 | relaxing the next neighbour settles it and keeps the earlier ones settled |
| Chiton.Sweep | day15/src/main.rs:74-83 | a sweep only lowers distances, keeps them realised, and a sweep that changes nothing leaves every neighbour relaxed |
| Chiton.FindBestPath | day15/src/main.rs:64-90 | the result is at most the risk of every walk from the top left to the bottom right cell, and some walk has exactly that risk unless the cell stayed unreached |
| Chiton.Settles | day15/src/main.rs:72-89 | once every cell is relaxed, no walk costs less than the last distance |
| Chiton.Reached | day15/src/main.rs:66-89 | a distance other than `u32::MAX - 1` is the risk of some walk |
| Chiton.Wrap | day15/src/main.rs:118-121 | a raised risk up to 9 is kept, and one from 10 to 18 drops by 9 into 1..9 |
| Chiton.WrapCycles | day15/src/main.rs:118-121 | a risk in 1..9 raised by at most 8 stays in 1..9, cycling through them |
| Chiton.LocateSpot | day15/src/main.rs:116-126 | tiled cells sit at distinct indices inside the enlarged grid |
| Chiton.LocateBounds | day15/src/main.rs:106-126 | every index of the enlarged grid is some tiled cell |
| Chiton.Tiled | day15/src/main.rs:106 | the enlarged grid has 25 times as many cells |
| Chiton.TiledCell | day15/src/main.rs:113-126 | each tile holds the original grid raised by its tile row plus tile column, wrapped into 1..9 |
| Chiton.FilledStep | day15/src/main.rs:114-127 | the innermost loop body writes its cell with the tiled risk and keeps the cells written before |
| Chiton.FilledAll | day15/src/main.rs:109-130 | once every loop has run, the enlarged grid is the tiled grid |
| Chiton.SourceOffset | day15/src/main.rs:112-126 | the source's offset arithmetic gives the tiled cell's index |
| Chiton.Enlarge | day15/src/main.rs:106-130 | the tiling loops produce the tiled grid |
| Chiton.Solve | day15/src/main.rs:92-135 | part 1 is the lowest risk across the grid, part 2 across the grid tiled five times each way |
| PacketDecoder.HexDigit | day16/src/main.rs:10 | `to_digit(16)` gives a value below 16 for a hexadecimal digit of either case |
| PacketDecoder.Nibble | day16/src/main.rs:11-17 | `{:04b}` gives exactly four bits |
| PacketDecoder.NibbleValue | day16/src/main.rs:11-17 | a nibble's four bits spell it in binary |
| PacketDecoder.HexBits | day16/src/main.rs:5-22 | the bits of the hexadecimal digits of a line; `HexBitsLength`, `HexBitsValue`, `HexBitsSkips`, `HexBitsSnoc` and `HexBitsAppend` state them |
| PacketDecoder.Parse | day16/src/main.rs:5-22 | `parse` reads only the first line; the bits are those `HexBits` states |
| PacketDecoder.HexBitsLength | day16/src/main.rs:5-22 | a line of hexadecimal digits gives four bits per digit |
| PacketDecoder.HexBitsValue | day16/src/main.rs:5-22 | the bits spell in binary the number the digits spell in hexadecimal |
| PacketDecoder.HexBitsSkips | day16/src/main.rs:10 | characters that are not hexadecimal digits add no bits |
| PacketDecoder.HexBitsAppend | day16/src/main.rs:9-19 | the bits of two texts side by side are the bits of the first followed by those of the second |
| PacketDecoder.HexBitsSnoc | day16/src/main.rs:9-19 | a digit at the end adds its nibble after the bits of the rest |
| PacketDecoder.BitsToVal | day16/src/main.rs:24-34 | the value of `n` bits is below `2^n` |
| PacketDecoder.BitsToValAppend | day16/src/main.rs:24-34 | appending bits shifts the value left by their number and adds theirs |
| PacketDecoder.ToBitsValue | day16/src/main.rs:24-34 | `bits_to_val` undoes writing a value that fits the width in binary |
| PacketDecoder.BitsValueBits | day16/src/main.rs:24-34 | writing `bits_to_val`'s result with as many bits gives the bits back |
| PacketDecoder.Field3 | day16/src/main.rs:62-63 | `b0 << 2 \| b1 << 1 \| b2` is below 8 |
| PacketDecoder.Field3Value | day16/src/main.rs:62-63 | the shifted header bits are the binary value of the three bits |
| PacketDecoder.Groups | day16/src/main.rs:66-79 | the literal loop reads whole five-bit groups: four value bits per group, stopping within the bits, and the offset moves five bits per group |
| PacketDecoder.DecodeAt | day16/src/main.rs:61-131 | a packet decoded from a window of bits is at least 11 bits long and fits the window; `None` exactly where the source would index past its bits |
| PacketDecoder.OperatorAt | day16/src/main.rs:80-124 | an operator packet is at least 18 bits long and fits the window |
| PacketDecoder.Counted | day16/src/main.rs:98-108 | length type 1 decodes exactly `n` children, laid end to end, each from the rest of the parent's bits |
| PacketDecoder.Bounded | day16/src/main.rs:109-121 | length type 0 decodes children from inside the `L` bits until they are used up exactly |
| PacketDecoder.Decode | day16/src/main.rs:61-131 | `Packet::new` on a whole transmission: the packet `DecodeAt` describes over all the bits |
| PacketDecoder.New | day16/src/main.rs:61-131 | `Packet::new` returns the packet `DecodeAt` describes |
| PacketDecoder.NewLiteral | day16/src/main.rs:66-79 | the literal loop returns the value and the offset `Groups` describes |
| PacketDecoder.GroupsStep | day16/src/main.rs:69-77 | one more group: its nibble joins the value, and a lead bit 0 ends the literal there |
| PacketDecoder.NewCounted | day16/src/main.rs:98-108 | the length type 1 loop returns the children and offset `Counted` describes |
| PacketDecoder.CountedStart | day16/src/main.rs:100-102 | the length type 1 loop starts with all `n` children to read |
| PacketDecoder.CountedDone | day16/src/main.rs:103 | with no children left, the ones decoded are all of them |
| PacketDecoder.NextCounted | day16/src/main.rs:104-106 | one pass of the length type 1 loop decodes the next child and moves past it |
| PacketDecoder.CountedNext | day16/src/main.rs:104 | while children remain, the next one decodes |
| PacketDecoder.CountedStep | day16/src/main.rs:104-106 | one more child: it is the next, and the rest follow it |
| PacketDecoder.NewBounded | day16/src/main.rs:109-121 | the length type 0 loop returns the children and offset `Bounded` describes |
| PacketDecoder.NextBounded | day16/src/main.rs:116-120 | one pass of the length type 0 loop decodes the next child from the bits up to `end` |
| PacketDecoder.BoundedNext | day16/src/main.rs:116-117 | while bits remain, the next child decodes from them |
| PacketDecoder.BoundedStep | day16/src/main.rs:117-119 | one more child: it is the next, and the rest follow it up to `end` |
| PacketDecoder.DecodeHeader | day16/src/main.rs:62-65 | the version is the first three bits, and the packet is a literal exactly when the next three spell 4 |
| PacketDecoder.DecodeLiteral | day16/src/main.rs:66-79 | a literal is 6 + 5k bits with k groups: every lead bit 1 but the last, and the nibbles after them are the value |
| PacketDecoder.DecodeCounted | day16/src/main.rs:98-108 | under length type 1, bits 7 to 17 count the children and the packet ends where the last child does |
| PacketDecoder.CountedLayout | day16/src/main.rs:103-107 | under length type 1 each child is decoded from where the one before it stopped |
| PacketDecoder.CountedOf | day16/src/main.rs:98-108 | a length type 1 packet's children are the ones `Counted` reads from bit 18 |
| PacketDecoder.DecodeBounded | day16/src/main.rs:109-121 | under length type 0 bits 7 to 21 give the length `L`; the children fill exactly the `L` bits after bit 22, and the packet is 22 + L bits |
| PacketDecoder.BoundedOf | day16/src/main.rs:109-121 | a length type 0 packet's children are the ones `Bounded` reads from bit 22 |
| PacketDecoder.GroupsLayout | day16/src/main.rs:66-79 | the groups the literal loop reads make up the value it returns |
| PacketDecoder.GroupsShift | day16/src/main.rs:69-77 | a group with lead bit 1 in front of groups laid out after it |
| PacketDecoder.ChildrenIndexed | day16/src/main.rs:103-120 | child `i` starts after the bits of the `i` children before it |
| PacketDecoder.CountedChildren | day16/src/main.rs:103-107 | length type 1 lays the children end to end |
| PacketDecoder.BoundedChildren | day16/src/main.rs:116-120 | length type 0 lays the children end to end |
| PacketDecoder.CountedFirst | day16/src/main.rs:103-107 | the first child under length type 1, and the ones after it |
| PacketDecoder.BoundedFirst | day16/src/main.rs:116-120 | the first child under length type 0, and the ones after it |
| PacketDecoder.ChildrenShift | day16/src/main.rs:103-120 | a child in front of children laid out after it |
| PacketDecoder.Flatten | day16/src/main.rs:133-140 | the hierarchy listed with the packet first |
| PacketDecoder.VersionsAppend | day16/src/main.rs:137 | the versions of two lists add up |
| PacketDecoder.VersionSum | day16/src/main.rs:133-140 | `version_sum`; `VersionSumFlat` proves it the sum of the versions of every packet in the hierarchy |
| PacketDecoder.VersionSumFlat | day16/src/main.rs:133-140 | `version_sum` adds the version of every packet in the hierarchy exactly once |
| PacketDecoder.VersionSumsFlat | day16/src/main.rs:137 | the children's version sums add every version below them once |
| PacketDecoder.Value | day16/src/main.rs:142-155 | `value`; `MinOf`, `MaxOf`, `SumOfAppend`, `ProductZero` and `ValueCompare` state what each operator gives |
| PacketDecoder.Values | day16/src/main.rs:146-149 | the children's values, in order |
| PacketDecoder.MinOf | day16/src/main.rs:148 | `min().unwrap()` is one of the values and no value is smaller |
| PacketDecoder.MaxOf | day16/src/main.rs:149 | `max().unwrap()` is one of the values and no value is larger |
| PacketDecoder.SumOfAppend | day16/src/main.rs:146 | summing a concatenation sums the parts |
| PacketDecoder.ProductZero | day16/src/main.rs:147 | the product is 0 exactly when one of the values is 0 |
| PacketDecoder.ValueCompare | day16/src/main.rs:150-152 | a comparison is 1 exactly when its relation holds between its first two children, and 0 otherwise |
| PacketDecoder.Solve | day16/src/main.rs:158-175 | part 1 is the version sum and part 2 the value of the packet decoded from the first line |
| PacketDecoder.SampleBits | day16/src/main.rs:183 | `D2FE28` gives its 24 bits |
| PacketDecoder.SampleDecodes | day16/src/main.rs:181-192 | `D2FE28` decodes to a version 6 literal of 21 bits |
| PacketDecoder.SampleValue | day16/src/main.rs:189 | its value is 2021 |
| PacketDecoder.CompareBits | day16/src/main.rs:196 | the hexadecimal text `38006F45291200` of `example_2` gives exactly the bits `CompareDecodes` decodes |
| PacketDecoder.CompareDecodes | day16/src/main.rs:194-201 | `38006F45291200` decodes to a version 1 less-than packet of 49 bits with the literals 10 and 20 |
| PacketDecoder.CompareVersions | day16/src/main.rs:133-140 | its version sum is 9 |
| PacketDecoder.CompareValue | day16/src/main.rs:151 | its value is 1, since 10 < 20 |
| PacketDecoder.LargestBits | day16/src/main.rs:5-22 | the hexadecimal text `EE00D40C823060` gives exactly the bits `LargestDecodes` decodes |
| PacketDecoder.LargestDecodes | day16/src/main.rs:98-108 | `EE00D40C823060` decodes to a version 7 maximum packet with the literals 1, 2 and 3 |
| PacketDecoder.LargestVersions | day16/src/main.rs:133-140 | its version sum is 14 |
| PacketDecoder.LargestValue | day16/src/main.rs:149 | its value is 3 |
| TrickShot.NextHeight | day17/src/main.rs:33-45 | a step keeps the height still to come while the probe rises, lowers it once the probe falls, and that height is never below the probe |
| TrickShot.Probe.constructor | day17/src/main.rs:57-63 | the probe starts in the given position, velocity and peak |
| TrickShot.Probe.Step | day17/src/main.rs:33-45 | `step` moves by the velocity, raises the peak to the new height, drags the horizontal velocity one towards 0 and lowers the vertical one by 1 |
| TrickShot.Probe.Fire | day17/src/main.rs:19-31 | `fire` steps while the probe is short of the right edge and above the bottom, and reports a hit at the first step inside the box |
| TrickShot.RunHits | day17/src/main.rs:19-31 | `fire` reports a hit exactly when some step lands in the box with the probe flying before every step up to it |
| TrickShot.RunHitAt | day17/src/main.rs:19-31 | a reported hit comes after the number of steps `fire` takes |
| TrickShot.HitRuns | day17/src/main.rs:19-31 | a hit at any step makes `fire` report one |
| TrickShot.RunSteps | day17/src/main.rs:19-31 | `fire` stops in the state after the steps it takes |
| TrickShot.PeakSteps | day17/src/main.rs:36-38 | the peak after `n` steps is the highest of the starting peak and every height reached in those steps |
| TrickShot.FallSteps | day17/src/main.rs:33-45 | after `n` steps the vertical velocity has lost `n`, and the height is `y + n * (yVel + 1) - (0 + 1 + ... + n)` |
| TrickShot.DragSteps | day17/src/main.rs:34-43 | a probe thrown forwards with velocity `v` slows by one a step, then stays at `x + (0 + 1 + ... + v)` |
| TrickShot.StillSteps | day17/src/main.rs:34-43 | with no horizontal velocity the probe keeps its `x` |
| TrickShot.HitsCount | day17/src/main.rs:64-65 | the count is the number of horizontal velocities that hit, so at most the number tried |
| TrickShot.HitSetNext | day17/src/main.rs:55-70 | velocity `n` joins the hitting velocities below it exactly if it hits |
| TrickShot.PeakBest | day17/src/main.rs:52-68 | the peak is the best peak of a hitting launch, or 0 if none does better |
| TrickShot.FindProbesForY | day17/src/main.rs:48-73 | over horizontal velocities 1 to `x_end`, the best peak of a hit (at least 0) and the number of hits |
| TrickShot.BestPeakBound | day17/src/main.rs:83-90 | the best peak is at least every vertical velocity's peak |
| TrickShot.BestPeakReached | day17/src/main.rs:83-90 | the best peak is one of them, unless it stayed at -1 |
| TrickShot.Solve | day17/src/main.rs:75-96 | part 1 is the best peak and part 2 the total number of hits over vertical velocities -100 to 99, against the hard-coded target |
| Snailfish.GetLeft | day18/src/main.rs:20-25 | the leftmost regular number; `GetEnds` proves it is the first of the element's numbers |
| Snailfish.GetRight | day18/src/main.rs:34-39 | the rightmost regular number; `GetEnds` proves it is the last of the element's numbers |
| Snailfish.GetEnds | day18/src/main.rs:20-39 | `get_left`/`get_right` return the first and the last regular number of the element |
| Snailfish.AddLeft | day18/src/main.rs:27-32 | `val` added to the leftmost regular number; `AddLeftLeaves` states the numbers and nesting it leaves |
| Snailfish.AddLeftLeaves | day18/src/main.rs:27-32 | `add_left` adds to the first regular number only and keeps the nesting |
| Snailfish.AddRight | day18/src/main.rs:41-46 | `val` added to the rightmost regular number; `AddRightLeaves` states the numbers and nesting it leaves |
| Snailfish.AddRightLeaves | day18/src/main.rs:41-46 | `add_right` adds to the last regular number only and keeps the nesting |
| Snailfish.Explode | day18/src/main.rs:48-83 | the element after `explode` and the explosion it reports; characterised by `ExplodeNone`, `ExplodeLeftmost`, `ExplodeParts` and `ExplodeLeaves` |
| Snailfish.ExplodeNone | day18/src/main.rs:48-83 | nothing explodes exactly when no pair sits four pairs deep, and then the element is unchanged |
| Snailfish.ExplodeLeftmost | day18/src/main.rs:48-83 | the exploding pair is nested four deep and no pair that deep lies to its left |
| Snailfish.ExplodeParts | day18/src/main.rs:52-76 | the explosion carries the pair's left and right numbers; `left`/`right` stay unset exactly when the element holds no regular number on that side |
| Snailfish.ExplodeLeaves | day18/src/main.rs:48-83 | after an explosion the pair is a 0, its left value is added to the nearest number on the left, its right value to the nearest on the right, other numbers unchanged |
| Snailfish.LeavesAround | day18/src/main.rs:48-83 | the numbers of an element are those before a position, those at it and those after it |
| Snailfish.Split | day18/src/main.rs:85-104 | the element after `split` and whether it split; characterised by `SplitNone`, `SplitLeaves` and `SplitTotal` |
| Snailfish.SplitNone | day18/src/main.rs:85-104 | `split` returns false exactly when every number is below 10, and then changes nothing |
| Snailfish.SplitLeaves | day18/src/main.rs:85-104 | `split` replaces the first number v of 10 or more by v/2 and v - v/2 and keeps all others |
| Snailfish.SplitTotal | day18/src/main.rs:85-104 | a split keeps the sum of the regular numbers |
| Snailfish.Magnitude | day18/src/main.rs:106-111 | three times the left half's magnitude plus twice the right half's; bounded by `MagnitudeBounds` |
| Snailfish.MagnitudeBounds | day18/src/main.rs:106-111 | the magnitude lies between the sum of the numbers and 3^height times that sum |
| Snailfish.ToElement | day18/src/main.rs:179-181 | the number as a pair element; `ExplodeNumberElement`, `SplitNumberElement` and `MagnitudeNumberElement` relate the number's operations to the element's through it |
| Snailfish.ExplodeNumber | day18/src/main.rs:159-173 | `Pair::explode`; equal to `Explode` of the pair as an element by `ExplodeNumberElement` |
| Snailfish.SplitNumber | day18/src/main.rs:175-177 | `Pair::split`; equal to `Split` of the pair as an element by `SplitNumberElement` |
| Snailfish.MagnitudeNumber | day18/src/main.rs:194-196 | `Pair::magnitude`; equal to `Magnitude` of the pair as an element by `MagnitudeNumberElement` |
| Snailfish.ExplodeNumberElement | day18/src/main.rs:159-181 | `Pair::explode` is `Element::explode` at depth 0 of the pair as an element |
| Snailfish.SplitNumberElement | day18/src/main.rs:175-181 | `Pair::split` (x before y, at most once) is `Element::split` of the pair as an element |
| Snailfish.MagnitudeNumberElement | day18/src/main.rs:194-196 | `Pair::magnitude` is the magnitude of the pair as an element |
| Snailfish.Step | day18/src/main.rs:189 | one turn of the `while` loop that explodes or else splits: `None` once the loop stops; `StepCases` says which of the two it runs |
| Snailfish.StepCases | day18/src/main.rs:189 | one loop turn explodes whenever a pair is nested four deep, otherwise splits; the loop stops exactly on a reduced number |
| Snailfish.Reduce | day18/src/main.rs:189 | the loop run for at most `fuel` turns; `ReduceReduced`, `ReduceFuel` and `ReduceReducedNumber` state what it reaches |
| Snailfish.Join | day18/src/main.rs:184-187 | the two numbers paired up before reduction |
| Snailfish.ReduceReduced | day18/src/main.rs:183-192 | whatever reduction reaches has no pair four deep and no number of 10 or more |
| Snailfish.ReduceFuel | day18/src/main.rs:189 | once reduction finishes, more turns change nothing |
| Snailfish.ReduceReducedNumber | day18/src/main.rs:189 | a reduced number is not changed by the loop |
| Snailfish.Add | day18/src/main.rs:183-192 | `add` pairs the numbers up and runs the explode-or-split loop; its result is reduced |
| Snailfish.ShowBalanced | day18/src/main.rs:121-138 | brackets of a written number balance |
| Snailfish.CommaDepth | day18/src/main.rs:133 | every comma of a written element sits inside a bracket, so only the middle comma is met at depth 0 |
| Snailfish.Halve | day18/src/main.rs:122-140 | the first pass of `Pair::new` yields exactly the left and the right half |
| Snailfish.ReadChar | day18/src/main.rs:127-138 | one character of the first pass keeps `opens` the bracket count and `read` the text read of the current half |
| Snailfish.New | day18/src/main.rs:121-157 | reading a written number with one-digit regular numbers gives the number back |
| Snailfish.Parse | day18/src/main.rs:199-206 | `parse` reads every line |
| Snailfish.SumList | day18/src/main.rs:219-223 | part 1 folds `add` over the list from the left |
| Snailfish.SumAll | day18/src/main.rs:219-223 | the left fold of `add` over the list; `SumAllReduced` proves the sum of two or more numbers reduced, and `SumList` computes it |
| Snailfish.SumAllReduced | day18/src/main.rs:219-223 | the sum of two or more numbers is reduced |
| Snailfish.LargestRow | day18/src/main.rs:231-235 | the inner `max` is the greatest magnitude of `p1.add(p2)` over `p2`, and one `p2` reaches it |
| Snailfish.LargestSum | day18/src/main.rs:227-238 | part 2 is the greatest magnitude of `p1.add(p2)` over all `p1`, `p2` of the list, the same number twice included, and one pair reaches it |
| BeaconScanner.AddSub | day19/src/main.rs:21-35 | adding back a subtracted position gives the position again, and subtracting an added one does too |
| BeaconScanner.SubAbsSum | day19/src/main.rs:37-47 | `sub`, then `abs`, then `sum` is the Manhattan distance `Distance` |
| BeaconScanner.DistanceMetric | day19/src/main.rs:37-47 | the distance is non-negative, zero exactly between equal positions, and symmetric |
| BeaconScanner.DistanceTriangle | day19/src/main.rs:37-47 | the distance obeys the triangle inequality |
| BeaconScanner.OrientIdentity | day19/src/main.rs:49-69 | entry 0 of the `permute` table is the position itself |
| BeaconScanner.OrientNorm | day19/src/main.rs:53-68 | every one of the 48 entries keeps \|x\|+\|y\|+\|z\| |
| BeaconScanner.OrientInjective | day19/src/main.rs:53-68 | each entry maps different positions to different positions, so `adjusted` has as many beacons as the scanner |
| BeaconScanner.PushOrders | day19/src/main.rs:56-64 | one innermost turn pushes six positions, so the list stays the orientation table entries in order |
| BeaconScanner.Permute | day19/src/main.rs:49-69 | for `val < 48` the three nested sign loops and six pushes per turn build the table whose entry `val` is `Orient(p, val)` (sign flips with x slowest, then the six axis orders) |
| BeaconScanner.ParseLine | day19/src/main.rs:83-91 | a coordinate line parses only when it has at least three comma-separated fields, all `isize` |
| BeaconScanner.Parse | day19/src/main.rs:72-100 | succeeds exactly when `Scan` does (no bad number, no short line) and then returns `Scan`'s closed scanners plus the open one when it holds a position |
| BeaconScanner.ScanFailed | day19/src/main.rs:83-86 | a failing line makes the whole parse fail (the `?`) |
| BeaconScanner.ScanShape | day19/src/main.rs:75-91 | headers are skipped, each blank line closes one scanner, and the scanners' positions in order are the parsed non-header, non-blank lines |
| BeaconScanner.CloseCount | day19/src/main.rs:94-96 | a non-empty trailing scanner is kept and an empty one is not |
| BeaconScanner.OffsetsComplete | day19/src/main.rs:109-114 | any offset that places a beacon on a mapped one is among the candidate `distances` |
| BeaconScanner.FindOffset | day19/src/main.rs:116-126 | returns an offset placing at least 12 beacons on mapped ones, and none only when no offset at all does |
| BeaconScanner.Merge | day19/src/main.rs:103-130 | on success: the orientation and offset match at least 12 beacons, `probes` gains every moved beacon, and no earlier orientation matches; on failure: `probes` is unchanged and no orientation and offset match |
| BeaconScanner.FarthestIs | day19/src/main.rs:162-167 | the inner `max` bounds every distance from one offset and is one of them |
| BeaconScanner.Part2 | day19/src/main.rs:160-167 | part 2 as written bounds the distance between any two of the merged offsets and is the distance of one such pair |
| BeaconScanner.LargestDistanceBounds | day19/src/main.rs:162-167 | part 2 bounds the distance between any two listed positions |
| BeaconScanner.LargestDistanceAttained | day19/src/main.rs:162-167 | part 2 is the distance between two listed positions |
| BeaconScanner.Part2MissesScannerZero | day19/src/main.rs:160-167 | with scanner 0 left out of `distances`, a map of two scanners gives 0, however far apart they are |
| BeaconScanner.Part2AllScannersIs | day19/src/main.rs:160-167 | part 2 over every scanner position, the origin included, is the largest distance between two of them |
| TrenchMap.StrToVec | day20/src/main.rs:14-19 | one pixel per character, light exactly where the character is '#' |
| TrenchMap.VecToStr | day20/src/main.rs:7-12 | one character per pixel, '#' for light and '.' for dark |
| TrenchMap.StrToVecOfVecToStr | day20/src/main.rs:7-19 | reading back a written row gives the row |
| TrenchMap.BitsValue | day20/src/main.rs:68-73 | nine pixels read as a binary number are below 2 to the 9th |
| TrenchMap.BitsValueOfToBits | day20/src/main.rs:68-73 | reading the bits of a number that fits gives the number |
| TrenchMap.ToBitsOfBitsValue | day20/src/main.rs:68-73 | writing out the value of some bits gives the bits, so the reading loses nothing |
| TrenchMap.ReadBinary | day20/src/main.rs:68-73 | the `from_str_radix` loop computes the binary value, most significant bit first |
| TrenchMap.TopRow | day20/src/main.rs:33-43 | the three tests for the row above give the neighbours on the grid and `image[0][0]` off it |
| TrenchMap.MiddleRow | day20/src/main.rs:45-53 | the same for the pixel's own row |
| TrenchMap.BottomRow | day20/src/main.rs:55-65 | the same for the row below |
| TrenchMap.Square | day20/src/main.rs:28-74 | the nine pixels around a position, row by row from the top left |
| TrenchMap.SquareValue | day20/src/main.rs:28-74 | the value is the 3x3 neighbourhood read row by row from the top left, off-grid pixels taken as `image[0][0]`, and is below 512 |
| TrenchMap.Grown | day20/src/main.rs:93-105 | the image framed by two rows and columns of `inf` on every side, four larger in each dimension |
| TrenchMap.Grow | day20/src/main.rs:93-105 | the nested loops give the image framed by two rows and columns of `inf` on each side |
| TrenchMap.CopyPixel | day20/src/main.rs:99-101 | one copy keeps the row-major copying invariant |
| TrenchMap.GrownAt | day20/src/main.rs:93-105 | a grown pixel is the image's pixel two up and two left when there is one, and `inf` otherwise |
| TrenchMap.GrownSquare | day20/src/main.rs:107-111 | growing by the top-left pixel changes no neighbourhood of the image: the padding shows what `get_square_value` assumes off the grid |
| TrenchMap.GrownSquareInside | day20/src/main.rs:190-194 | neighbourhoods away from the edge are kept by growing with any colour |
| TrenchMap.Enhance | day20/src/main.rs:107-121 | the enhanced image is four larger in each dimension; `EnhanceAt` and `EnhanceBackground` state its pixels |
| TrenchMap.UpdateImage | day20/src/main.rs:107-121 | the result is `Enhance`: 4 larger in each dimension, each pixel the algorithm's entry for its neighbourhood in the grown image |
| TrenchMap.UpdatePixel | day20/src/main.rs:115-117 | one write keeps the row-major update invariant |
| TrenchMap.EnhanceAt | day20/src/main.rs:107-121 | each pixel of the image becomes the algorithm's entry for its neighbourhood in the image, with `old[0][0]` off the grid |
| TrenchMap.EnhanceBackground | day20/src/main.rs:107-121 | the new top-left pixel is entry 511 of the algorithm when the background was light and entry 0 when it was dark |
| TrenchMap.Parse | day20/src/main.rs:76-91 | the first line is the algorithm, and the image is the remaining non-blank lines in order |
| TrenchMap.RowsAppend | day20/src/main.rs:79-87 | lines read in two runs give the rows of each run in turn |
| TrenchMap.ParseShown | day20/src/main.rs:76-91 | writing an algorithm, a blank line and non-empty rows, then parsing, gives them back |
| TrenchMap.ExampleIndex | day20/src/main.rs:165-176 | the example's index at (2, 2) is 34 |
| TrenchMap.ExampleGrown | day20/src/main.rs:181-194 | the grown example is 9x9 and its index at (4, 4) is still 34 |
| DiracDice.SumAppend | day21/src/main.rs:12-28 | the sum of two runs of results one after the other is the sum of their sums, component by component |
| DiracDice.SumThree | day21/src/main.rs:12-28 | the sum of the three roll results adds each player's wins |
| DiracDice.MoveRange | day21/src/main.rs:50-59 | a move lands on a space from 1 to 10, congruent to the old space plus the rolls modulo 10 |
| DiracDice.Update | day21/src/main.rs:43-68 | `GameState::update`; `UpdateValid`, `UpdateTurn`, `UpdateEarlyRoll`, `UpdateThirdRoll` and `UpdateProgress` state what one roll changes |
| DiracDice.UpdateValid | day21/src/main.rs:43-68 | positions stay within 1..10 and a turn stays under three rolls |
| DiracDice.UpdateTurn | day21/src/main.rs:45-62 | the roll counter stays under three whatever the positions |
| DiracDice.UpdateEarlyRoll | day21/src/main.rs:44-48 | the first two rolls of a turn change only the roll count and the roll sum |
| DiracDice.UpdateThirdRoll | day21/src/main.rs:48-65 | the third roll moves only the current player, by the turn's rolls, adds the new space to their score, passes the turn and resets the counters |
| DiracDice.UpdateProgress | day21/src/main.rs:43-68 | every roll brings the game closer to its end, so both part 1's loop and `universe` terminate |
| DiracDice.Play | day21/src/main.rs:83-86 | the state after `n` rolls of the deterministic die; `PlayNext` gives its next roll and `PlayValid` keeps it on the track |
| DiracDice.PlayNext | day21/src/main.rs:83-86 | roll `n` of the deterministic die shows `n % 100 + 1` |
| DiracDice.PlayValid | day21/src/main.rs:83-86 | positions stay on the track throughout part 1's game |
| DiracDice.RollUntilOver | day21/src/main.rs:83-86 | the loop stops after the first roll that takes a score to 1000 |
| DiracDice.Part1 | day21/src/main.rs:71-92 | the answer is the lower score times the number of rolls, at the first point a score reaches 1000 |
| DiracDice.WinsSomeone | day21/src/main.rs:94-128 | from every state at least one universe is won |
| DiracDice.Universe | day21/src/main.rs:94-128 | afterwards the table holds the state, every entry equals `Wins` of its state (a score of 21 for player 1 wins first, then player 2, else the sum over the rolls 1, 2 and 3), and no entry is dropped |
| DiracDice.Branch | day21/src/main.rs:116-122 | one roll's result is the table's entry for the next state, filled in first if missing |
| DiracDice.Part2 | day21/src/main.rs:130-147 | the answer is the larger of the two players' universe counts from the start |
| ReactorReboot.NewRange | day22/src/main.rs:12-15 | callers must pass `min <= max`; the range then holds exactly the integers from `min` to `max` |
| ReactorReboot.Intersect | day22/src/main.rs:18-26 | `Some` exactly when some integer lies in both ranges; the result lies within both and holds exactly the shared integers |
| ReactorReboot.Count | day22/src/main.rs:28-30 | a range holds at least one integer |
| ReactorReboot.CountPoints | day22/src/main.rs:28-30 | `count` is the number of integers in the range |
| ReactorReboot.Overlap | day22/src/main.rs:87-102 | the overlap is an "on" cuboid lying within both, and its score is its volume |
| ReactorReboot.OverlapPoints | day22/src/main.rs:87-102 | `overlap` is `Some` exactly when some cube lies in both cuboids, and then holds exactly the cubes they share |
| ReactorReboot.New | day22/src/main.rs:44-83 | any cuboid read has ordered ranges and its volume as score |
| ReactorReboot.NewOfShow | day22/src/main.rs:44-83 | a printed step `on|off x=a..b,y=c..d,z=e..f` reads back with "on" exactly for `on`, its ranges and its volume; one with a reversed range is the panic of `Range::new` |
| ReactorReboot.Parse | day22/src/main.rs:105-110 | every cuboid kept is scored |
| ReactorReboot.ParseShown | day22/src/main.rs:105-110 | `parse` reads back printed steps, in order |
| ReactorReboot.TakenSteps | day22/src/main.rs:115-120 | the steps the loop does not skip are steps of the input, in order; with no limit every step is taken (`AllTaken`) |
| ReactorReboot.FlipOne | day22/src/main.rs:126-129 | the entry pushed for one earlier entry is its overlap with the step, a valid cuboid with the flag flipped |
| ReactorReboot.Flipped | day22/src/main.rs:125-130 | the entries pushed for the earlier entries are valid cuboids; `WeightFlipped` states their signed weight |
| ReactorReboot.Lights | day22/src/main.rs:113-131 | the list `lights` after the steps, every entry valid; `LightsWeight` gives its inclusion–exclusion weight |
| ReactorReboot.Total | day22/src/main.rs:132-144 | the "on" scores minus the "off" scores of `lights`; `TotalCounts` proves it the number of cubes left on |
| ReactorReboot.CountCubes | day22/src/main.rs:112-144 | the result is the "on" scores minus the "off" scores of the list built step by step: skip a step not touching the limit, push it if "on", then push each earlier entry's overlap with it with the flag flipped |
| ReactorReboot.Visit | day22/src/main.rs:121-130 | one taken step appends itself if "on" and then the flipped overlaps with the entries before it, in order |
| ReactorReboot.LightsWeight | day22/src/main.rs:112-131 | inclusion–exclusion: every cube has signed weight 1 in the list when the taken steps leave it on, and 0 otherwise |
| ReactorReboot.WeightFlipped | day22/src/main.rs:125-130 | the flipped overlaps cancel the earlier entries' weight on every cube of the new step and add nothing elsewhere |
| ReactorReboot.LightsWithin | day22/src/main.rs:121-130 | every entry is a scored cuboid within any region that holds every step |
| ReactorReboot.SumOverWeight | day22/src/main.rs:132-143 | the "on" scores minus the "off" scores equal the signed weights summed over the region |
| ReactorReboot.TotalCounts | day22/src/main.rs:112-144 | `count_cubes` returns the number of cubes the taken steps leave on, counted over any region holding every step |
| ReactorReboot.Part1 | day22/src/main.rs:159-167 | `count_cubes` with the limit -50..50 on every axis; `Part1Counts`, `Part1CountsOutside` and `Part1ClippedCounts` state what it counts |
| ReactorReboot.Part2 | day22/src/main.rs:168 | `count_cubes` with no limit; `Part2Counts` proves it the number of cubes left on |
| ReactorReboot.Part2Counts | day22/src/main.rs:168 | part 2 is the number of cubes left on after all steps |
| ReactorReboot.Part1Counts | day22/src/main.rs:159-167 | part 1 is the number of cubes left on by the steps touching the limit, counted over all their cubes, inside the limit or not |
| ReactorReboot.Part1CountsOutside | day22/src/main.rs:116-167 | for one "on" step over x=50..51 part 1 gives 2, while only 1 cube inside the limit is on |
| ReactorReboot.ClippedCounts | day22/src/main.rs:116-120 | cutting each step down to a region first makes the count exactly the cubes of the region left on |
| ReactorReboot.Part1ClippedCounts | day22/src/main.rs:159-167 | part 1 with each step cut down to the limit counts the cubes inside the limit left on |
| Amphipods.Room | day23/src/main.rs:41-48 | every type's home room is one of the four rooms |
| Amphipods.FromRoom | day23/src/main.rs:12-20 | callers pass a room below 4; the type returned has that room as its home, so `from_room` inverts `room` |
| Amphipods.FromRoomOfRoom | day23/src/main.rs:12-20 | `from_room(room(t)) == t` for every type |
| Amphipods.Energy | day23/src/main.rs:22-29 | a step costs ten to the power of the type's home room (1, 10, 100, 1000) |
| Amphipods.Doorway | day23/src/main.rs:32-39 | the doorway cell above room `r` is `(r + 1) * 2`, which is the formula `hallway_move` and `room_move` use |
| Amphipods.EnergyIncreases | day23/src/main.rs:22-29 | a type whose home room lies further right costs strictly more per step |
| Amphipods.FromRooms | day23/src/main.rs:118-160 | `from_2`/`from_4` give an empty 11-cell hallway and four rooms of the input's depth, each slot holding exactly the input's type |
| Amphipods.Finished | day23/src/main.rs:330-349 | `DONE_2`/`DONE_4` as burrows: well shaped, of the requested depth |
| Amphipods.InsertIdx | day23/src/main.rs:72-89 | on a room with a free slot, `get_insert_idx` gives an empty slot with no empty slot deeper, i.e. the first empty one found from the back |
| Amphipods.RemoveIdx | day23/src/main.rs:91-108 | on a room holding a token, `get_remove_idx` gives an occupied slot with nothing occupied above it, i.e. the first token found from the front |
| Amphipods.HallwayMove | day23/src/main.rs:163-181 | the moved burrow keeps the shape and depth |
| Amphipods.HallwayMoveSwaps | day23/src/main.rs:163-181 | hallway cell `pos` and slot `get_insert_idx` (hallway occupied) or `get_remove_idx` (hallway empty) trade contents, every other cell is unchanged, and the distance is slot + 1 + the hallway steps to the doorway |
| Amphipods.RoomMove | day23/src/main.rs:184-205 | the moved burrow keeps the shape and depth |
| Amphipods.RoomMoveSwaps | day23/src/main.rs:184-205 | the hallway is untouched; for different rooms the top token of `src` and the deepest free slot of `dst` trade contents and every other slot is unchanged; the distance is both slot depths plus one plus the doorway gap plus one |
| Amphipods.Population | day23/src/main.rs:207-209 | the population is at most the depth, and zero exactly when every slot is empty |
| Amphipods.IsRoomEnterable | day23/src/main.rs:211-220 | `is_room_enterable`: every slot is empty or holds the room's own type; `NotEnterableHasToken` and `EnterableHomeHasRoom` use it |
| Amphipods.IsRoomDone | day23/src/main.rs:222-227 | `is_room_done`: every slot holds the room's own type, which on a room of the burrow's depth is the row of `DONE_2`/`DONE_4` |
| Amphipods.IsBurrowDone | day23/src/main.rs:229-231 | `is_burrow_done`: all four rooms are done; `DoneIsFinished` and `FinishedIsDone` tie it to the finished burrow |
| Amphipods.IsPathClear | day23/src/main.rs:233-238 | `is_path_clear`: no token on any hallway cell between the two positions, both included |
| Amphipods.NotEnterableHasToken | day23/src/main.rs:211-220 | a room that is not enterable holds a token, so `get_remove_idx` does not hit `unreachable!()` on it |
| Amphipods.CountUpdate | day23/src/main.rs:65-70 | overwriting one cell trades its token for the new one in the per-type count |
| Amphipods.PopulationUpdate | day23/src/main.rs:65-70 | overwriting one cell changes the population by the change in occupancy of that cell |
| Amphipods.CountHas | day23/src/main.rs:207-209 | a row holding a token at some slot counts that type at least once |
| Amphipods.CountFull | day23/src/main.rs:222-227 | a row filled with one type counts it as often as the row is long |
| Amphipods.CountNone | day23/src/main.rs:222-227 | a row without a type counts it zero times |
| Amphipods.TokensAtLeast | day23/src/main.rs:111-115 | the burrow's tokens of a type include those in the hallway and in any one room |
| Amphipods.TokensAtLeastTwo | day23/src/main.rs:111-115 | the burrow's tokens of a type include those of any two different rooms |
| Amphipods.EnterableHomeHasRoom | day23/src/main.rs:246-259 | a hallway token whose home is enterable finds a free slot there, so the home move never reaches `unreachable!()` in `get_insert_idx` |
| Amphipods.EnterableHomeHasRoomFrom | day23/src/main.rs:283-294 | the same for a token leaving a room that must be left towards its enterable home |
| Amphipods.HallwayToRoomProgress | day23/src/main.rs:246-259 | the home move from the hallway keeps the burrow valid (each type still appears `depth` times) and lowers the progress measure |
| Amphipods.RoomToHallwayProgress | day23/src/main.rs:260-271 | a move out of a room that must be left keeps the burrow valid and lowers the progress measure |
| Amphipods.RoomToRoomShape | day23/src/main.rs:184-205 | the room-to-room move is the two slot updates of `room_move`, the leaver into its home slot and an empty cell into its old slot |
| Amphipods.RoomToRoomProgress | day23/src/main.rs:283-294 | a room-to-room move keeps the burrow valid and lowers the progress measure |
| Amphipods.RoomToRoomTokens | day23/src/main.rs:283-294 | a room-to-room move keeps each type's token count |
| Amphipods.TokensTwoRooms | day23/src/main.rs:193-202 | rewriting two different rooms changes each type's count by the change in those two rooms |
| Amphipods.TokensOneRoom | day23/src/main.rs:65-70 | rewriting one room changes each type's count by the change in that room |
| Amphipods.RoomToRoomMeasure | day23/src/main.rs:283-294 | a room-to-room move lowers the measure, and rooms other than the two touched keep their misplaced count |
| Amphipods.LegalMoveProgress | day23/src/main.rs:241-297 | every move `get_possible_moves` can produce keeps each type's token count and lowers the measure, so `solve`'s recursion terminates |
| Amphipods.LegalMoveKeepsDoorways | day23/src/main.rs:245 | no move ever leaves a token on a doorway cell (2, 4, 6, 8): only the stops 0, 1, 3, 5, 7, 9, 10 are written |
| Amphipods.DoneIsFinished | day23/src/main.rs:229-231 | a valid burrow whose four rooms are done is exactly the finished burrow, with an empty hallway |
| Amphipods.FinishedIsDone | day23/src/main.rs:330-349 | the finished burrow is valid and `is_burrow_done` holds for it; each room holds `depth` tokens of its own type and none of the others |
| Amphipods.DoneHasNoMoves | day23/src/main.rs:309-313 | no legal move leaves a done burrow, so skipping `get_possible_moves` there loses nothing |
| Amphipods.CoversStep | day23/src/main.rs:245-272 | after handling one more stop the list covers every legal move from or to the stops handled so far |
| Amphipods.CoversLegal | day23/src/main.rs:241-297 | covering the three move rules covers every legal move |
| Amphipods.HallwayToRoom | day23/src/main.rs:255-258 | the home move from the hallway, costing the steps times the token's energy; `HallwayToRoomProgress` and `HallwayToRoomLegal` state it |
| Amphipods.RoomToHallway | day23/src/main.rs:264-268 | the move out of a room to a stop, costing the steps times the token's energy; `RoomToHallwayProgress` and `RoomToHallwayLegal` state it |
| Amphipods.RoomToRoom | day23/src/main.rs:288-291 | the room-to-room move, costing the steps times the leaver's energy; `RoomToRoomShape`, `RoomToRoomProgress`, `RoomToRoomTokens` and `RoomToRoomLegal` state it |
| Amphipods.HallwayToRoomLegal | day23/src/main.rs:255-258 | the home move from a stop is legal |
| Amphipods.RoomToHallwayLegal | day23/src/main.rs:264-268 | the move out to a stop is legal |
| Amphipods.RoomToRoomLegal | day23/src/main.rs:288-291 | the room-to-room move is legal |
| Amphipods.GetPossibleMoves | day23/src/main.rs:241-297 | the generated list is sound and complete: every entry is a legal move, and every legal move is listed |
| Amphipods.MovesAtStop | day23/src/main.rs:246-271 | one pass of the hallway loop lists only legal moves, including the home move of a token on stop `i` and every move out of a room onto an empty stop `i` |
| Amphipods.MoveHome | day23/src/main.rs:246-259 | only legal moves are listed, and the token on stop `i` is listed walking home whenever its home is enterable and the hallway cells between are clear |
| Amphipods.MovesOut | day23/src/main.rs:260-271 | an empty stop `i` gets every legal move out of a room, and only legal ones |
| Amphipods.MoveOutOf | day23/src/main.rs:263-269 | room `j`'s top token is listed stepping out to stop `i` when the room is neither done nor enterable and the way is clear, and only legal moves are listed |
| Amphipods.RoomToRoomMoves | day23/src/main.rs:283-294 | the final loop lists only legal moves and covers every legal room-to-room move |
| Amphipods.DeparturesExtend | day23/src/main.rs:283-294 | after one more departing room, its legal move is covered too |
| Amphipods.DeparturesAll | day23/src/main.rs:283-294 | covering every room of `can_depart` covers every legal room-to-room move |
| Amphipods.DepartFrom | day23/src/main.rs:285-292 | only legal moves are listed, and a departing room's top token is listed going home whenever its home is in `can_arrive` and the hallway between the doorways is clear |
| Amphipods.RoomLists | day23/src/main.rs:274-281 | `can_arrive` holds exactly the enterable rooms and `can_depart` exactly the occupied rooms that are neither done nor enterable |
| Amphipods.StopIndex | day23/src/main.rs:245 | every stop is one of the seven the hallway loop visits |
| Amphipods.EndTail | day23/src/main.rs:310-312 | a path's end is the end of its tail from the first move's target |
| Amphipods.ReachRefl | day23/src/main.rs:308 | a state reaches itself at cost zero |
| Amphipods.ReachStep | day23/src/main.rs:310-312 | a legal move followed by a path is a path, costing the sum |
| Amphipods.ClosedMono | day23/src/main.rs:300-314 | lowering other scores never reopens a closed state while its own score stays |
| Amphipods.SolveEnter | day23/src/main.rs:308 | recording `b` at `total` starts the invariant of the loop over `b`'s moves |
| Amphipods.EnterReachable | day23/src/main.rs:308 | the only score the insert changes is `b`'s own, which `b` reaches with no move |
| Amphipods.EnterClosedBelow | day23/src/main.rs:308 | states with a lower measure than `b` stay closed after the insert |
| Amphipods.EnterClosedAbove | day23/src/main.rs:308 | closed states other than `b` stay closed when `b`'s score falls |
| Amphipods.SolveStep | day23/src/main.rs:310-312 | one recursive call of `solve` keeps the loop invariant |
| Amphipods.SolveExit | day23/src/main.rs:309-313 | after every move is explored `b` is closed, giving `solve`'s contract |
| Amphipods.ExploredExtend | day23/src/main.rs:310-312 | after one more call the first n + 1 moves are explored, as later calls only lower scores |
| Amphipods.ExploredAll | day23/src/main.rs:310-312 | exploring every generated move explores every legal one |
| Amphipods.Solve | day23/src/main.rs:300-314 | a state already seen at no more than `total` leaves the table untouched; otherwise it is recorded at `total`; scores only fall, every new score is the cost of a real path from `b` plus `total`, and every recorded state no further along than `b` is left closed (each successor recorded at most its score plus the move's cost) |
| Amphipods.ClosedReach | day23/src/main.rs:300-314 | in a table where every state is closed, a path's end is recorded at no more than the start's score plus the path's cost |
| Amphipods.OutcomeStep | day23/src/main.rs:323-325 | one `solve` call from a first move keeps the invariant of `find_best_outcome`'s loop |
| Amphipods.OutcomeOptimal | day23/src/main.rs:323-327 | after the loop any state reachable from the start with at least one move is recorded at no more than the path's cost |
| Amphipods.FindBestOutcome | day23/src/main.rs:316-328 | the answer is the cost of a real path to the finished burrow and no path (of at least one move) costs less; it is missing exactly when no such path exists, where the source panics on `unwrap` |
| Amphipods.Example2 | day23/src/main.rs:370-375 | the test burrow `from_2(EXAMPLE_2)` is well shaped and two deep |
| Amphipods.Example2Cells | day23/src/main.rs:386 | the test burrow cell by cell: empty hallway, rooms BA, CD, BC, DA |
| Amphipods.SwapTestFirst | day23/src/main.rs:388-397 | `hallway_move(3, 2)` takes 4 steps, leaves `B` on cell 3 and room 2's top slot empty, room 0 and the burrow are not done, and the move at cost 40 is among the legal moves |
| Amphipods.SwapTestStep1 | day23/src/main.rs:388 | the burrow after the first move is well shaped and two deep |
| Amphipods.SwapTestSecond | day23/src/main.rs:399-405 | `room_move(1, 2)` takes 4 steps, room 2 is then done, and the move at cost 400 is among the legal moves |
| ArithmeticLogicUnit.OperationFrom | day24/src/main.rs:16-28 | a mnemonic is read as an operation exactly when it is that operation's mnemonic; any other text is `None`, where the source reaches `unreachable!` |
| ArithmeticLogicUnit.RegisterFrom | day24/src/main.rs:38-48 | a register name is read as that register and nothing else; any other text is `None` |
| ArithmeticLogicUnit.SourceFrom | day24/src/main.rs:56-64 | an operand is a register exactly when it is a register's name; otherwise it is an immediate within the `isize` range, or `None` where `parse::<isize>().unwrap()` panics |
| ArithmeticLogicUnit.ParseLine | day24/src/main.rs:76-89 | a line without a space is dropped by the `filter_map` |
| ArithmeticLogicUnit.Parse | day24/src/main.rs:73-91 | the program has at most one instruction per line |
| ArithmeticLogicUnit.ShowIntChars | day24/src/main.rs:56-64 | an integer written out has no space and is not a register name |
| ArithmeticLogicUnit.NamesAndMnemonics | day24/src/main.rs:16-48 | mnemonics and register names have no space |
| ArithmeticLogicUnit.SourceOfShow | day24/src/main.rs:56-64 | every operand is read back from the text it is written as |
| ArithmeticLogicUnit.ParseShowLine | day24/src/main.rs:76-89 | every printable instruction is read back from its line |
| ArithmeticLogicUnit.ShowProgram | day24/src/main.rs:73-91 | a program is written out one line per instruction |
| ArithmeticLogicUnit.ParseShown | day24/src/main.rs:73-91 | every printable program is read back from the lines it is written as |
| ArithmeticLogicUnit.ParseShownLines | day24/src/main.rs:73-91 | lines that each show the instruction at the same index parse to that program |
| ArithmeticLogicUnit.ShowProgramAt | day24/src/main.rs:73-91 | the written program's i-th line shows its i-th instruction |
| ArithmeticLogicUnit.TruncDiv | day24/src/main.rs:145-149 | Rust's `/` on `isize`, rounding toward zero; `TruncDivMod` and `TruncNatural` state it |
| ArithmeticLogicUnit.TruncMod | day24/src/main.rs:144 | Rust's `%` on `isize`, of the dividend's sign; `TruncDivMod` and `TruncNatural` state it |
| ArithmeticLogicUnit.TruncDivMod | day24/src/main.rs:144-149 | Rust's `/` and `%` on `isize`: quotient times divisor plus remainder is the dividend, the remainder is smaller than the divisor in size and has the dividend's sign |
| ArithmeticLogicUnit.TruncEquation | day24/src/main.rs:144-149 | quotient times divisor plus remainder is the dividend, for truncating division |
| ArithmeticLogicUnit.Signs | day24/src/main.rs:144-149 | how negation moves through a product |
| ArithmeticLogicUnit.TruncNatural | day24/src/main.rs:144-149 | on a non-negative dividend and a positive divisor, truncating division and remainder agree with Euclidean ones |
| ArithmeticLogicUnit.HalfInRange | day24/src/main.rs:144-149 | halving an `isize` and its remainder by two stay within `isize` |
| ArithmeticLogicUnit.Write | day24/src/main.rs:121-128 | the written register holds the new value and the other three are unchanged |
| ArithmeticLogicUnit.SameRegisters | day24/src/main.rs:93-99 | two register files with the same four values are equal |
| ArithmeticLogicUnit.Compute | day24/src/main.rs:137-154 | `div` panics exactly on a zero divisor and `mod` exactly on a zero divisor or the overflowing `isize::MIN % -1`, other operations always have a value; a quotient and a remainder satisfy the truncating division equation; `eql` is 1 exactly on equal operands and 0 otherwise |
| ArithmeticLogicUnit.Exec | day24/src/main.rs:137-154 | an instruction without an operand panics (`unwrap`); a step succeeds exactly when the operation has a value within `isize` (a debug build panics on overflow), and then only the destination register changes, to that value |
| ArithmeticLogicUnit.Execute | day24/src/main.rs:190-192 | the `for` loop running `alu.run` on each instruction, `None` at the first panic; `ExecuteAppend` and `ExecuteFirst` split it, and `RunAll` is the loop proved equal to it |
| ArithmeticLogicUnit.ExecuteAppend | day24/src/main.rs:190-192 | running two programs one after the other is running their concatenation |
| ArithmeticLogicUnit.ExecuteFirst | day24/src/main.rs:190-192 | a program that runs to the end runs its first instruction and then the rest |
| ArithmeticLogicUnit.ALU.constructor | day24/src/main.rs:102-110 | `ALU::new` starts with all four registers at zero |
| ArithmeticLogicUnit.ALU.Load | day24/src/main.rs:225-230 | an ALU built with the given register values |
| ArithmeticLogicUnit.ALU.Get | day24/src/main.rs:112-119 | reads the named register of the ALU's state |
| ArithmeticLogicUnit.ALU.Set | day24/src/main.rs:121-128 | the ALU's new state is the old one with the register written |
| ArithmeticLogicUnit.ALU.GetSourceVal | day24/src/main.rs:130-135 | an immediate is its value, a register operand that register's value |
| ArithmeticLogicUnit.ALU.Run | day24/src/main.rs:137-154 | the ALU's new state is the step of the instruction from the old one |
| ArithmeticLogicUnit.Feed | day24/src/main.rs:171-188 | feeding inputs keeps the program's length |
| ArithmeticLogicUnit.InputsPrefix | day24/src/main.rs:171-188 | a prefix of a program has no more `inp` instructions than the program |
| ArithmeticLogicUnit.FeedAt | day24/src/main.rs:171-188 | the instruction at `i` of a fed program is the original one, except that an `inp` gets as its operand the input counted by the `inp` instructions before it |
| ArithmeticLogicUnit.FeedNoInputs | day24/src/main.rs:171-188 | a program without `inp` is left as it is |
| ArithmeticLogicUnit.FeedInputs | day24/src/main.rs:171-188 | the loop with its `inp_count` counter rewrites the program as `Feed` does |
| ArithmeticLogicUnit.RunAll | day24/src/main.rs:190-192 | running a program instruction by instruction leaves the ALU in the state the whole program leaves |
| ArithmeticLogicUnit.RunProgram | day24/src/main.rs:171-193 | the ALU ends in the state that running the fed program leaves |
| ArithmeticLogicUnit.NumberToDigits | day24/src/main.rs:157-163 | a number has one decimal digit per character of its text |
| ArithmeticLogicUnit.Pow10 | day24/src/main.rs:165-169 | powers of ten are positive |
| ArithmeticLogicUnit.DigitsToNumber | day24/src/main.rs:165-169 | `digits_to_number`; `DigitsToNumberAppend`, `DigitsToNumberBounds` and the inverse pair `NumberToDigitsValue`/`DigitsOfValue` state it |
| ArithmeticLogicUnit.DigitsToNumberAppend | day24/src/main.rs:165-169 | appending a digit multiplies the value by ten and adds the digit |
| ArithmeticLogicUnit.NumberToDigitsValue | day24/src/main.rs:157-169 | `digits_to_number` undoes `number_to_digits` |
| ArithmeticLogicUnit.NumberToDigitsSplit | day24/src/main.rs:157-163 | the digits of a number are those of its tenth followed by its last digit |
| ArithmeticLogicUnit.ScaleDigit | day24/src/main.rs:165-169 | a digit times a power of ten lies between zero and nine times it, and at least the power when the digit is not zero |
| ArithmeticLogicUnit.DigitsToNumberBounds | day24/src/main.rs:165-169 | a value of `n` digits is below ten to the `n`, and at least ten to the `n - 1` when the first digit is not zero |
| ArithmeticLogicUnit.DigitsOfValue | day24/src/main.rs:157-169 | `number_to_digits` undoes `digits_to_number` on digit lists without a leading zero |
| ArithmeticLogicUnit.ExtendedScore | day24/src/main.rs:234-236 | a prefix's digits with one more digit appended are worth ten times the prefix plus the digit |
| ArithmeticLogicUnit.AppendDigit | day24/src/main.rs:157-163 | the digits of ten times a number plus a digit are the number's digits followed by that digit |
| ArithmeticLogicUnit.DigitsExample | day24/src/main.rs:330-336 | `digits_to_number_test`: 13579246899999 and its digit list are converted into each other |
| ArithmeticLogicUnit.FeedFirst | day24/src/main.rs:171-188 | a program that starts with its only `inp` gets the input there and nothing else changes |
| ArithmeticLogicUnit.InputsAfterFirst | day24/src/main.rs:171-188 | every non-empty prefix of such a program counts exactly one `inp` |
| ArithmeticLogicUnit.ShowNegate | day24/src/main.rs:263-270 | the two lines of `example1_test` show its two instructions |
| ArithmeticLogicUnit.ParseNegate | day24/src/main.rs:263-270 | `example1_test`'s lines parse to `inp x` followed by `mul x -1` |
| ArithmeticLogicUnit.NegateRuns | day24/src/main.rs:263-279 | on input `v` that program leaves `-v` in `x` and the other registers as they were |
| ArithmeticLogicUnit.NegateExample | day24/src/main.rs:263-279 | `example1_test`: parsing and running the program on 5 and on -5 leaves -5 and 5 in `x` |
| ArithmeticLogicUnit.TakeBitRuns | day24/src/main.rs:303-308 | three instructions halve `w` and put the remainder by two of the half in a register that held zero |
| ArithmeticLogicUnit.ShowBitsStart | day24/src/main.rs:300-302 | the first three lines of `example3_test` show the first three instructions |
| ArithmeticLogicUnit.ShowTakeBit | day24/src/main.rs:303-308 | each halving step is shown as `div w 2`, `add r w`, `mod r 2` |
| ArithmeticLogicUnit.ShowBitsMiddle | day24/src/main.rs:303-308 | the middle six lines of `example3_test` show the two halving steps |
| ArithmeticLogicUnit.ShowBitsEnd | day24/src/main.rs:309-310 | the last two lines show the last two instructions |
| ArithmeticLogicUnit.ParseBits | day24/src/main.rs:298-315 | `example3_test`'s lines parse to its program |
| ArithmeticLogicUnit.FedBits | day24/src/main.rs:171-188 | feeding that program one input gives it to the first `inp w` |
| ArithmeticLogicUnit.BitsStartRuns | day24/src/main.rs:300-302 | the first three instructions put the input in `w` and its remainder by two in `z` |
| ArithmeticLogicUnit.BitsLast | day24/src/main.rs:309-310 | the last two instructions leave in `w` the remainder by two of its half |
| ArithmeticLogicUnit.BitsRuns | day24/src/main.rs:298-328 | on any `isize` input the program leaves the remainders by two of the input and of its successive halves in `z`, `y`, `x` and `w`, with truncating operators |
| ArithmeticLogicUnit.BitsOfNatural | day24/src/main.rs:298-328 | on a non-negative input the four registers hold its four low bits |
| ArithmeticLogicUnit.Halves | day24/src/main.rs:298-328 | halving twice is dividing by four, and halving thrice is dividing by eight |
| ArithmeticLogicUnit.RunBits | day24/src/main.rs:315-318 | parsing the program and running it on a fresh ALU on a non-negative input leaves its four low bits |
| ArithmeticLogicUnit.BitsExample | day24/src/main.rs:298-328 | `example3_test`: 15, 85 and 682 leave `1 1 1 1`, `0 1 0 1` and `1 0 1 0` in `w x y z` |
| ArithmeticLogicUnit.Chunks | day24/src/main.rs:208 | `split` on `inp` gives at least one chunk, and no chunk holds an `inp` |
| ArithmeticLogicUnit.ChunksCover | day24/src/main.rs:208 | the chunks joined are the program without its `inp` instructions |
| ArithmeticLogicUnit.Prefix | day24/src/main.rs:234-235 | a prefix with one more digit is one digit longer |
| ArithmeticLogicUnit.Score | day24/src/main.rs:234-236 | the score of a prefix with digit `d` appended is ten times the prefix plus `d` |
| ArithmeticLogicUnit.Least | day24/src/main.rs:253 | the least of a non-empty set of scores belongs to it and is at most every member |
| ArithmeticLogicUnit.LandingScores | day24/src/main.rs:221-249 | every `z` some prefix lands on has a score to keep |
| ArithmeticLogicUnit.LowsOfLowest | day24/src/main.rs:238-247 | the map the chunk should leave keeps, for each `z` reached, a score no higher than any prefix landing there |
| ArithmeticLogicUnit.LowsOfReached | day24/src/main.rs:238-247 | every kept score is the score of a prefix landing on that `z` |
| ArithmeticLogicUnit.RecordReached | day24/src/main.rs:238-247 | recording one more prefix keeps every kept score and every valid number backed by a prefix considered |
| ArithmeticLogicUnit.RecordBelow | day24/src/main.rs:238-247 | recording one more prefix keeps every considered prefix's `z` kept no higher than its score, and every valid number it completes recorded |
| ArithmeticLogicUnit.LowsSummarised | day24/src/main.rs:221-250 | once every state and digit has had its turn, `new_lows` is the map of lowest scores per `z` reached |
| ArithmeticLogicUnit.SameMaps | day24/src/main.rs:221-250 | two maps with the same keys and values are equal |
| ArithmeticLogicUnit.KeptAtMost | day24/src/main.rs:241-246 | a kept score is no lower than the lowest score landing on that `z` |
| ArithmeticLogicUnit.KeptAtLeast | day24/src/main.rs:241-246 | once all prefixes are done, a kept score is no higher than the lowest one landing there |
| ArithmeticLogicUnit.ValidSummarised | day24/src/main.rs:238-239 | once every state and digit has had its turn, the recorded numbers are exactly the 14-digit prefixes leaving `z` at zero |
| ArithmeticLogicUnit.Consider | day24/src/main.rs:225-247 | one run of the chunk from `z`, `w = digit` and `x = y = 0`: a 14-digit prefix leaving `z == 0` is pushed to `valid_models`; otherwise the score replaces the one kept for that `z` unless that one is lower |
| ArithmeticLogicUnit.ConsiderDigit | day24/src/main.rs:224-248 | one digit's turn keeps the kept scores and valid numbers a summary of the prefixes done, with this one added |
| ArithmeticLogicUnit.ConsiderState | day24/src/main.rs:223-249 | a state's nine turns fail exactly when one of its runs panics, and otherwise add all nine prefixes to those summarised |
| ArithmeticLogicUnit.ChunkStep | day24/src/main.rs:221-250 | a chunk panics exactly when some state and digit make a run panic; otherwise the new map is the lowest score per `z` reached and the numbers recorded are exactly the valid ones of the chunk |
| ArithmeticLogicUnit.Smallest | day24/src/main.rs:253 | `valid_models.iter().min()` is `None` exactly for no number, and otherwise the least recorded one |
| ArithmeticLogicUnit.MembersAppend | day24/src/main.rs:239 | the numbers of two lists joined are those of both |
| ArithmeticLogicUnit.RecordedNext | day24/src/main.rs:216-251 | an empty chunk is skipped; a chunk with a panicking run ends the search; otherwise its valid numbers join those of the rest, run from the map it leaves |
| ArithmeticLogicUnit.OutcomeJoin | day24/src/main.rs:214-251 | nothing recorded so far leaves the outcome alone, and what is recorded accumulates |
| ArithmeticLogicUnit.LowestModel | day24/src/main.rs:206-253 | the first non-empty chunk is run from `z == 0`, and the answer is the least of all valid numbers recorded over the chunks; `None` exactly when a run panics or nothing is recorded for the `unwrap` |
| SeaCucumber.ReadCell | day25/src/main.rs:10-14 | a cell holds a south-facing cucumber exactly for `v`, an east-facing one exactly for `>`; anything else is empty |
| SeaCucumber.Parse | day25/src/main.rs:5-20 | one row per line and one cell per character; read back as the inverse of drawing by `ParseShow` and `ShowParse` |
| SeaCucumber.ParseShow | day25/src/main.rs:5-20 | every map is read back from its drawing |
| SeaCucumber.ShowParse | day25/src/main.rs:5-20 | a drawing made of `.`, `v` and `>` is drawn back from the map it reads as |
| SeaCucumber.AheadBehind | day25/src/main.rs:35-36 | the cell a cucumber moves to, wrapping round right and bottom edges, and the cell it would come from are inverse |
| SeaCucumber.Moved | day25/src/main.rs:28-42 | one herd's pass keeps the map rectangular and its dimensions; `MovedAt` states each cell |
| SeaCucumber.Next | day25/src/main.rs:22-64 | the east pass then the south pass keeps the map rectangular and its dimensions |
| SeaCucumber.MovedAt | day25/src/main.rs:28-42 | after a pass, a cell is emptied when its cucumber faces an empty cell of the map before the pass, filled when the cucumber behind it moves, and unchanged otherwise |
| SeaCucumber.Step | day25/src/main.rs:22-64 | `step` is the east pass followed by the south pass on the map the east pass left, and keeps the map's dimensions |
| SeaCucumber.MovePass | day25/src/main.rs:28-42 | the nested loops over a copy of the map compute the pass in which every cucumber of the herd is decided from the map before the pass |
| SeaCucumber.Visit | day25/src/main.rs:30-40 | at one cell, a cucumber of the herd facing an empty cell (wrapping with `%`) empties its cell and fills the one ahead; otherwise the copy is unchanged |
| SeaCucumber.PassedSoFar | day25/src/main.rs:47-61 | after the loops reach a cell in row-major order, the copy holds the moves of exactly the cucumbers before it |
| SeaCucumber.SoFarAll | day25/src/main.rs:44-63 | once every cell has been visited the copy is the whole pass |
| SeaCucumber.MovedKeepsHerd | day25/src/main.rs:28-42 | a pass keeps the number of cucumbers of the moving herd |
| SeaCucumber.MovedKeepsOther | day25/src/main.rs:47-61 | a pass leaves every cucumber of the other herd in its cell |
| SeaCucumber.NextKeepsHerds | day25/src/main.rs:22-64 | `step` keeps the number of cucumbers of each herd |
| SeaCucumber.IterateKeepsHerds | day25/src/main.rs:66-80 | any number of steps keeps the number of cucumbers of each herd |
| SeaCucumber.StaysStopped | day25/src/main.rs:66-80 | once a step moves nothing, no later step moves anything |
| SeaCucumber.FindStopStep | day25/src/main.rs:66-80 | returns the first step, counted from 1, whose map equals the map it started from, and no earlier step is one; `None` means no step within the fuel stops |
| SeaCucumber.NeverStops | day25/src/main.rs:66-80 | the map `>.` alternates between two maps forever, so some maps never stop |
| SeaCucumber.RowExample | day25/src/main.rs:252-263 | `basic_test`: `...>>>>>...` steps to `...>>>>.>..` and then to `...>>>.>.>.` |
| Text.OccursShift | day12/src/main.rs:10 | an occurrence one place further along is an occurrence in the text without its first character |
| Text.Find | day12/src/main.rs:10 | the position found is an occurrence with none before it; `None` means no occurrence at all |
| Text.SplitOnce | day12/src/main.rs:10 | `split_once` fails exactly when the separator does not occur; otherwise the text is the head, the separator and the tail, and the head holds no separator |
| Text.NoEarlierOccurrence | day22/src/main.rs:45-47 | a prefix ending before the first occurrence holds no occurrence |
| Text.SplitOnceAt | day22/src/main.rs:45-47 | the first occurrence of the separator is the place `split_once` splits |
| Text.SplitOnceChar | day13/src/main.rs:29 | a one-character separator that is absent from the head splits the text there |
| Text.FindNoChar | day13/src/main.rs:29 | a text without the character holds no occurrence of it |
| Text.StripPrefix | day13/src/main.rs:39 | `strip_prefix` succeeds exactly when the text starts with the prefix, and then the text is the prefix followed by the rest |
| Text.Split | day6/src/main.rs:10 | `split` gives at least one piece, and no piece holds the separator |
| Text.SplitJoin | day6/src/main.rs:10 | joining the pieces of `split` with the separator gives the text back |
| Text.SplitNone | day2/src/main.rs:55 | a text without the separator splits into itself alone |
| Text.WordLength | day4/src/main.rs:17 | the leading run of non-space characters ends at a space or at the end |
| Text.Words | day4/src/main.rs:17 | `split_whitespace` gives non-empty pieces without spaces; `WordsWoven` and `WordsOfWoven` characterise them exactly |
| Text.Gaps | day4/src/main.rs:17 | the runs of spaces around and between the words, one more than the words |
| Text.WordsWoven | day4/src/main.rs:17 | the text is its words woven with its gaps: every gap is blank and every inner gap non-empty, so `split_whitespace` drops nothing but spaces |
| Text.WordsOfWoven | day4/src/main.rs:17 | words without spaces woven with blank gaps, non-empty between words, split back into exactly those words |
| Text.DigitValue | day6/src/main.rs:11 | a digit's value is below ten |
| Text.Magnitude | day6/src/main.rs:11 | a magnitude parses exactly when it is a non-empty run of digits, and its value is the decimal value |
| Text.ParseUnsigned | day6/src/main.rs:11 | `parse::<uN>()` only ever yields a value inside the type's range |
| Text.ParseSigned | day19/src/main.rs:85 | `parse::<iN>()` only ever yields a value inside the type's range |
| Text.ParseAll | day6/src/main.rs:10-11 | collecting the parses succeeds exactly when every piece parses, and then yields each piece's value in order |
| Text.ParseAllSigned | day19/src/main.rs:84-85 | the same for a signed type |
| Text.Digits | day6/src/main.rs:11 | a number prints as a non-empty run of digits |
| Text.DigitsValue | day6/src/main.rs:11 | the printed digits have the number's decimal value |
| Text.ParseDigits | day6/src/main.rs:11 | printing a number in range and parsing it back gives the number |
| Text.ParseSignedDigits | day19/src/main.rs:85 | a signed number in range, printed with its sign, parses back to itself |
| Text.BlankAt | day13/src/main.rs:88 | the first section of the input ends at the first empty line |
| Text.Replace | day14/src/main.rs:12 | `str::replace`: every occurrence replaced left to right, as the pieces of `split` joined by the replacement; `ReplaceNone` and `ReplaceSelf` state it |
| Text.ReplaceSelf | day14/src/main.rs:12 | replacing the pattern by itself gives the text back |
| Text.ReplaceNone | day14/src/main.rs:12 | `replace` leaves a text without the pattern as it is |

## Left out

- Every day: reading the input file, `main`, `println!` and the `Result` plumbing of the file reading are not modelled; the solvers take the input lines as a parameter.
- SonarSweep: reading the input file and parsing each line as a `u64` are left out; the readings are given as integers. `main` asserts at least one reading, and `Part1` and `Part2` require one.
- Dive: reading the input file and the printing are left out; the `i64` arithmetic of the submarine is modelled on unbounded integers, since 8-bit values over a file of lines cannot reach its range.
- BinaryDiagnostic: reading the input and `from_str_radix` on its lines are left out; the reports are given as numbers below 2^16. The `dbg!` output is left out.
- GiantSquid: only a board followed by an empty line is kept, as the code does. Boards are not required to have 25 numbers: `Wins` reads only the 25 marks, which `BoardOk` and `MarksOk` fix, as in the code.
- GiantSquid.Play: returns the last value each answer was set to instead of printing each one.
- HydrothermalVenture.Answers: grid cells are unbounded integers. The `u16` cells of the source overflow (a debug-build panic) from 257 diagonal lines through one point, which the model does not capture.
- HydrothermalVenture.Solve: correct only while fewer than 0xff straight lines meet at a point, where the 0xff encoding stops separating the two kinds; this is stated as its precondition.
- HydrothermalVenture: the `y as i16` and `as usize` conversions are modelled on lines that lie on the grid (`InGrid`); a line off the grid makes the source panic and is excluded by precondition.
- Lanternfish: the counts are unbounded integers; the `u64` slots of the source do not overflow within 256 days for a realistic input, and the model does not bound them. A timer above 8 makes `fish[x as usize]` panic; `Timers` requires timers below 9.
- TreacheryOfWhales: costs are unbounded integers; the `i32`/`u64` arithmetic of the source does not overflow for `u16` positions and realistic crab counts, and the model does not bound it.
- SevenSegment.FirstDifference: `(0..10).find` on seven-entry patterns would index past the end if no wire among the first seven differed; the model stops at seven and returns `None` there.
- SevenSegment.DeduceSegments: proved only for patterns that really are the ten digits through some wiring (`Scrambled`); on other patterns the source's `unwrap`s and indexing may panic, and the model does not say what it returns.
- SevenSegment: bitwise `^` and `&` on `u8` are modelled on 0/1 entries only, which is all the patterns hold.
- SmokeBasin.BuildBasin: the jump to a recorded cell with an open direction takes any such cell instead of the first in the `BTreeMap`'s key order. The basin is returned as a set of cells. That the basin is exactly the cells reachable from the low point without crossing a 9 is not proved: only that it contains the low point and is closed.
- SmokeBasin.AllBasins: inherits the gap of `BuildBasin`. Each basin is only known to contain its low point, avoid 9s and be closed, not to be exactly the region reachable from it, so the sizes are not pinned down to the source's.
- SmokeBasin.Solve: part 2 is the product of the three largest of those sizes, so it inherits the same gap; part 1 and the low points are exact.
- SmokeBasin: the map is required to be rectangular with at least one row, as `main` assumes when it takes `x_len` from the first row. `u8` heights and `u64` sums are unbounded integers.
- SyntaxScoring: a closer with nothing open, or a character that is neither bracket, makes the source panic; `Scan` returns `Fails` for it and `Solve` requires no line to fail. `Solve` also requires at least one line that is not corrupted, for the final `unwrap`.
- SyntaxScoring.Complete: the `u64` score is an unbounded integer; the source overflows for completions of more than 27 brackets, which the model does not capture.
- DumboOctopus.Solve: part 2's loop is unbounded in the source; the model takes at most `fuel` steps after step 100 and returns `None` if no step within them zeroes every level.
- DumboOctopus: the grid is required to be 10 x 10 (`get_adjacents` is hard-coded for it); `u8` levels cannot overflow here (at most 9 + 1 + 8) and are unbounded integers.
- PassagePathing.Explore: the source recurses without a bound (it never ends when two big caves are adjacent); the model spends one unit of `fuel` per level and returns `None` when it runs out.
- PassagePathing.Explore: states which walks the list holds, not that each appears once or in what order; the answers count list entries, as the source does.
- PassagePathing.Solve: inherits both gaps of `Explore`. Each answer is the length of a list whose entries, as a set, are exactly the rule-abiding walks, but a walk listed twice is not ruled out, and `None` means the fuel ran out.
- TransparentOrigami.Solve: requires what the source needs to avoid panicking: a blank line, a fold along each axis, dots on the page and every fold within bounds. Printing the final page is left out.
- TransparentOrigami.ParseCoords: a dot that falls outside the page makes the source panic; the model requires every dot to lie on it.
- TransparentOrigami.FoldReflects: proved only for a fold line at the middle of the page, which is how the first fold along each axis sizes it.
- ExtendedPolymerization.Solve: requires a rule for every pair reached in 40 steps, since `map[pair]` panics without one; it models `count_letters` as written (see Findings), so its answers inherit the over-count.
- ExtendedPolymerization.RulesOf: an input line with fewer than three letters makes the source index out of bounds; the model requires three.
- ExtendedPolymerization.WrittenKeys: counts that fall to zero keep their key, so the result's keys may hold letters that no longer occur; the model does not show they are exactly the polymer's letters.
- ExtendedPolymerization: `usize` counts are unbounded integers; after 40 steps they stay below 2^64 for the puzzle's template length, and the model does not bound them.
- Chiton.Neighbours: the source computes the side as the square root of the length in floating point; the model takes the side as a parameter and requires a square grid.
- Chiton: `find_actual_path` and the iteration count only feed a debug line that is printed; they are not modelled.
- Chiton: distances are unbounded naturals. The `u32` sum in the relaxation does not overflow in the source either: every cell is reached from its left or upper neighbour before the first sweep processes it.
- Chiton.FindBestPath: the model does not prove a walk always exists, so the result may also be `u32::MAX - 1`; it does not bound the number of sweeps.
- Chiton.Solve: inherits the gap of `FindBestPath`. Each answer is at most the risk of every walk, but either may be the unreached marker `u32::MAX - 1`, because reaching the bottom-right corner is not proved.
- PacketDecoder.DecodeAt: the source copies each child's bits into a fresh vector; the model reads a window of the whole transmission instead, and does not prove the two equivalent.
- PacketDecoder: values and sums are unbounded naturals; `usize` overflow in `bits_to_val`, `sum` and the product is not modelled.
- PacketDecoder: the test inputs other than `D2FE28` and `38006F45291200` are not evaluated; `EE00D40C823060` is a further worked example.
- PacketDecoder.Solve: requires the transmission to decode and evaluate, since the source panics otherwise.
- TrickShot: `isize` positions and velocities are unbounded integers; for the hard-coded target and velocities they stay far from overflow.
- TrickShot.Solve: part 1 is the best peak over the velocities tried; that no untried velocity does better is not claimed, as the source does not claim it either.
- Snailfish: `add_left`, `add_right`, `explode` and `split` rewrite the tree in place through `&mut self`; the model rewrites tree values. Rust's ownership leaves no alias of the tree, so nothing observable is lost.
- Snailfish.Add: the loop `while pair.explode() || pair.split() {}` is bounded by `fuel` turns and gives `None` when they run out; that reduction always finishes is not proved.
- Snailfish.New: only lines that are written numbers with one-digit regular numbers are modelled; on other lines the source panics, recurses without end, or reads garbage.
- Snailfish: `usize` overflow of values and magnitudes is not modelled.
- Snailfish.LargestSum: when a sum runs out of fuel, part 2 gives `None` instead of a maximum.
- BeaconScanner: `isize` overflow in `add`, `sub`, `abs` and `permute` is not modelled; coordinates are unbounded integers.
- BeaconScanner.FindOffset: the candidate offsets are a set tried in an unspecified order, not the `Vec` in `HashSet` iteration order, so which of several matching offsets is returned is not pinned down.
- BeaconScanner: the `while !scanners.is_empty()` loop of `main` is not modelled: it does not terminate when some scanner never overlaps the map.
- BeaconScanner.Merge: the ghost `orientation` result names the orientation used; the source does not return it.
- TrenchMap: images are `seq<seq<bool>>` values rebuilt with sequence updates rather than `Vec`s written in place.
- TrenchMap.UpdateImage: requires an algorithm of at least 512 entries; the source panics only if a square value actually reaches past a shorter one.
- TrenchMap.SquareValue: requires a rectangular grid with a non-empty first row; the source panics on a row shorter than the first, and `image[0][0]` panics on an empty image.
- TrenchMap.Parse: requires at least one line, the `algo.unwrap()` panic.
- TrenchMap: the example's `algo[34]` check and its 35 lit pixels after two updates are not evaluated: the 512-entry example algorithm and two full image updates are too large for the verifier to compute.
- TrenchMap: `main`'s lit-pixel counts, its 50-step fold and `print_image` are not modelled.
- DiracDice: `usize` overflow is not modelled; counts and scores are unbounded naturals.
- DiracDice.Universe: requires fewer than three rolls into the turn; from any other state the source recurses without end.
- DiracDice: the `HashMap` is a `map` value threaded in and out of `Universe`, standing for the `&mut` table.
- ReactorReboot: `isize` overflow in `count`, in the scores and in the final sums is not modelled; bounds are read as 64-bit numbers but arithmetic is unbounded.
- ReactorReboot: the test expectations 39 and 590784 are not evaluated; the model proves instead that `count_cubes` counts the lit cubes.
- ReactorReboot: `count_cubes` requires its cuboids and limit to have ordered ranges, which every cuboid the program builds has, through `Range::new`.
- Amphipods: `RoomSize::Two`/`Four` and the fixed-size arrays are sequences; a burrow is well shaped when it has 11 hallway cells and four rooms of depth 2 or 4, and `RoomSize::get`/`set` are sequence indexing and update.
- Amphipods: `usize` overflow in distances and scores is not modelled; energies are unbounded naturals.
- Amphipods: the `HashMap` is a `map` value threaded in and out of `Solve`, standing for the `&mut` table; the order in which `get_possible_moves` lists moves is not part of any contract (the list is proved sound and complete, not ordered).
- Amphipods.FindBestOutcome: the start burrow is never recorded (only its successors are), as in the source, so the result speaks of paths of at least one move; a start that is already finished yields `None` where the source panics on `unwrap`.
- Amphipods: the test answers 12521 and 44169 of `solve_test`/`part2_test` are not evaluated; `FindBestOutcome` is proved optimal for every valid burrow instead.
- Amphipods: of `swap_test`, only the first two moves and their assertions are stated (`SwapTestFirst`, `SwapTestSecond`); the later eight moves are not evaluated.
- Amphipods: `main`, `INPUT_2` and `INPUT_4` are not modelled: they only feed the puzzle input to `find_best_outcome` and print the answers.
- Amphipods.HallwayToRoomOk: adds a free slot in the home room as a condition of the home move (and `RoomToRoomOk` likewise for the room-to-room move); the source does not test it, and `EnterableHomeHasRoom` and `EnterableHomeHasRoomFrom` prove it always holds in a valid burrow.
- ArithmeticLogicUnit.Exec: an overflowing `+`, `*` or `%` panics, as in a debug build; the wrap-around of a release build is not modelled.
- ArithmeticLogicUnit: `example2_test` is not modelled; it compares an `isize` with `Some(1)`, which does not type-check.
- ArithmeticLogicUnit.ChunkStep: walks the states in any order instead of the `BTreeMap`'s key order; this order changes neither the map left nor the numbers recorded. It keeps `valid_models` as a list, but states only which numbers it holds, since only the least is used.
- ArithmeticLogicUnit.LowestModel: the answer is proved to be the least number that the pruned search records, not the least 14-digit input the whole program accepts. That global optimality of keeping one lowest score per `z` is not proved.
- ArithmeticLogicUnit.Consider: each chunk is run from `w = digit`, `x = y = 0` and the kept `z`, as the source does; whether this matches the full program depends on the chunk's code, which the model does not check.
- ArithmeticLogicUnit.DigitsToNumber: `10_isize.pow` overflows past 18 digits; scores here have at most 14 digits, and unbounded integers are used.
- ArithmeticLogicUnit: reading the input file and the `println!` of the answer are left out; `LowestModel` takes the parsed program and returns the answer.
- SeaCucumber.FindStopStep: takes a step bound (fuel), because `find_stop_step` loops forever on maps that never stop (`NeverStops` exhibits one).
- SeaCucumber: `step` is modelled on rectangular maps with at least one row; the source panics on an empty map and does not move the cells of rows longer than the first.
- SeaCucumber: the tests `move_both_test`, `wrap_test` and the 58-step example of `find_stop_test` are not evaluated; `basic_test` is (`RowExample`).
- Text: strings are sequences of characters; a space for `split_whitespace` is a character of Unicode's White_Space property, as in Rust; there is no Unicode normalisation or case folding, and a leading `+` is the only sign `parse` accepts for an unsigned type, as in Rust's integer parsing; error values (`ParseIntError` and the like) are collapsed to `None`.
- Options: `Option` is a small datatype of this project, standing for Rust's `Option`.

## Findings

| source | as written | input that shows it | evidently intended | confidence | as-written member | corrected member |
|---|---|---|---|---|---|---|
| day4/src/main.rs:10-21 | `parse` pushes a board only when it meets an empty line, so the board still being read when the lines run out is dropped | lines `["", "7"]` (no blank line after the last board): no boards | keep the last board: `[[7]]` | high, not executed | GiantSquid.ParseDropsLastBoard | GiantSquid.ParseBoardsKeepingLast |
| day7/src/main.rs:44 | part 2 folds over `0..last`, which leaves out the furthest crab's position | crabs `[1]`: answer 1 (and `[0]` gives `u64::MAX`) | search `0..=last`: answer 0 | high, not executed | TreacheryOfWhales.Part2MissesLast | TreacheryOfWhales.Part2Inclusive |
| day14/src/main.rs:64-66 | `count_letters` adds one for the first and one for the last letter even when they are the same letter, which then got its half-pair back twice | template `AA` with no steps: `A` is counted 3 times | add one for each end only if its half-pair was lost: `A` counted 2 times | medium, not executed | ExtendedPolymerization.CountLettersOverCounts | ExtendedPolymerization.CorrectedCounts |
| day19/src/main.rs:145-167 | part 2 takes the largest distance between the offsets `merge` returned, which leave out scanner 0 at the origin | two scanners, the second at (1, 0, 0): part 2 gives 0 | the largest distance between any two scanners, scanner 0 included: 1 | medium, not executed | BeaconScanner.Part2MissesScannerZero | BeaconScanner.Part2AllScannersIs |
| day22/src/main.rs:116-120 | part 1 skips the steps that miss the region -50..50 but counts every cube of a step that only partly lies inside it | `on x=50..51,y=0..0,z=0..0`: part 1 gives 2 | count only the cubes inside the region: 1 | medium, not executed | ReactorReboot.Part1CountsOutside | ReactorReboot.Part1ClippedCounts |
