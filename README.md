# Advent of Code runner, 2024 day 1 and 2023 day 8, in Dafny

This project models three parts of a Kotlin Advent of Code repository:

- The runner, in `AocRunner.kt`:
  - `main` resolves the command-line tokens against the registry of puzzle days. A token is a bare day number, `all`, `latest`, or `YYYY:all` / `YYYY:latest` / `YYYY:N`.
  - It runs the selected days in ascending order.
  - For each day, `runDay` first solves part 1 and part 2, then benchmarks part 1 and part 2, and sets the day object's `benchmarking` and `partMode` flags around each call.
  - `runResults` classifies an answer against the known verified one and sends it to the results log.
  - `benchmark` calls the solver until a 10 s timeout, or until both 2000 samples and one second have passed. It reports the HALF_EVEN-rounded average in microseconds of the last 100 samples.
- The 2024 day 1 solution, in `AocDay01.kt`:
  - Lines are split on three spaces into two `Int` columns.
  - Part 1 builds each column in a collector. The collector keeps a list sorted by inserting each value at the index `binarySearch` reports. Part 1 then sums the distances between the two columns, paired in order.
  - Part 2 counts the right column in a map. It sums each left value times its count.
- The 2023 day 8 solution, in `Day8.kt`:
  - The node table is read from fixed character positions.
  - Part 1 walks the table from `AAA` to `ZZZ`, following the instruction string cyclically.
  - Part 2 walks from every node ending in `A` to the first node ending in `Z`, and folds the step counts with lcm.

Modules:

- `Wrappers` (wrappers.dfy): `Option` and `Result`.
- `KotlinText` (kotlin_text.dfy): `String.toIntOrNull` on 32-bit `Int`, `split` on a literal delimiter, and decimal rendering.
- `Selection` (selection.dfy): the registry queries, the token forms, the resolution loop of `main`, and sorting the selected set.
- `Benchmark` (benchmark.dfy): the stop rule, the sampling loop and the windowed average.
- `Runner` (runner.dfy):
  - the results log, as a class with a `sent` sequence;
  - the registered day, as a class whose `benchmarking`, `partMode` and invocation trace the runner updates;
  - `runResults`, `benchmark`, `runDay` and `main`.
- `AocDay01` (day01.dfy): the line reader, the two collectors as classes, part 1 and part 2.
- `Lcm` (lcm.dfy): gcd and lcm on positive integers.
- `Day8` (day08.dfy): the node table, the walk as a loop, part 1 and part 2.

Time is an input. A `Clock` holds two things:

- the elapsed milliseconds seen at each evaluation of the benchmark's loop condition;
- the duration of each call.

A solver is a value, `Solver`. It says what every call of a part does: answer, raise `NotImplementedError`, raise the not-released exception, or throw something nothing catches.

## Model

| member | source | states |
|---|---|---|
| KotlinText.ParseInt32 | src/main/kotlin/dev/mtib/aoc/AocRunner.kt:52 | an accepted token has a value within 32-bit `Int` range, starts with a digit or a sign, and is negative only after a leading `-` |
| KotlinText.ParseShowInt | src/main/kotlin/dev/mtib/aoc24/days/AocDay01.kt:26 | every `Int` is read back by `toInt` from its own decimal rendering |
| KotlinText.ParseRejectsNonDigit | src/main/kotlin/dev/mtib/aoc/AocRunner.kt:52 | a string with a character that is neither a digit nor a leading sign is not a number |
| KotlinText.IndexOf | src/main/kotlin/dev/mtib/aoc24/days/AocDay01.kt:26 | the result is the first occurrence of the delimiter at or after the start, and none means there is no occurrence |
| KotlinText.Split | src/main/kotlin/dev/mtib/aoc24/days/AocDay01.kt:26 | `split("   ")` on a literal delimiter, pieces in order with empty ones kept; a definition without a contract of its own: `SplitJoin`, `SplitPiecesFree` and `SplitJoinDisjoint` state its properties |
| KotlinText.SplitJoin | src/main/kotlin/dev/mtib/aoc24/days/AocDay01.kt:26 | `split` returns at least one piece, and joining the pieces with the delimiter restores the line |
| KotlinText.SplitPiecesFree | src/main/kotlin/dev/mtib/aoc24/days/AocDay01.kt:26 | no piece that `split` returns contains the delimiter |
| KotlinText.SplitJoinDisjoint | src/main/kotlin/dev/mtib/aoc24/days/AocDay01.kt:26 | splitting the join of pieces that share no character with the delimiter gives back exactly those pieces |
| Selection.MostRecentYear | src/main/kotlin/dev/mtib/aoc/AocRunner.kt:43-47 | no year exactly when nothing is registered; otherwise a registered year that no registered year exceeds |
| Selection.DaysOfYear | src/main/kotlin/dev/mtib/aoc/AocRunner.kt:64 | exactly the registered days of that year |
| Selection.MaxDay | src/main/kotlin/dev/mtib/aoc/AocRunner.kt:59 | `maxOrNull` is null only for no days; otherwise it is a member that no member follows |
| Selection.Expand | src/main/kotlin/dev/mtib/aoc/AocRunner.kt:52-79 | for each token form, what it adds: a bare number adds that day of the most recent year; `all` adds every registered day; `latest` adds the newest day of a year, or nothing when that year has none; `YYYY:N` adds that day whether or not it is registered |
| Selection.QualifiedDayIgnoresRegistry | src/main/kotlin/dev/mtib/aoc/AocRunner.kt:66-69 | a `YYYY:N` token adds the same day whatever the registry and the most recent year are |
| Selection.LatestIsNewest | src/main/kotlin/dev/mtib/aoc/AocRunner.kt:59 | `latest` adds exactly the registered day of the most recent year with the largest day number |
| Selection.ParseToken | src/main/kotlin/dev/mtib/aoc/AocRunner.kt:50-79 | the token grammar: an `Int` first, then `all`, `latest`, then `YYYY:all`, `YYYY:latest` or `YYYY:N`, and anything else unreadable; a definition without a contract of its own: `ParseRender`, `Expand` and `ResolveDays` state its properties |
| Selection.ParseRender | src/main/kotlin/dev/mtib/aoc/AocRunner.kt:48-75 | every token form with a 4-digit year and an `Int` day is read back from its command-line spelling |
| Selection.ExampleSelection | src/main/kotlin/dev/mtib/aoc/AocRunner.kt:59-69 | with 2022 day 1 and 2023 days 1 to 8 registered, `2023:8` and `latest` each select only 2023 day 8 |
| Selection.ResolveDays | src/main/kotlin/dev/mtib/aoc/AocRunner.kt:42-83 | abandons the run when no year is registered, and otherwise exactly when some token is unreadable; the first unreadable token is the one reported; a day is selected exactly when some token selects it |
| Selection.MinimumExists | src/main/kotlin/dev/mtib/aoc/AocRunner.kt:85 | a non-empty set of days has a least element in (year, day) order |
| Selection.SortDays | src/main/kotlin/dev/mtib/aoc/AocRunner.kt:85 | `sorted()` lists the selected set strictly ascending, each day once and none added |
| Benchmark.KeepSampling | src/main/kotlin/dev/mtib/aoc/AocRunner.kt:186 | the loop condition: under the 10 s timeout and short of either 2000 samples or one second; a definition without a contract of its own: `StopRule` and `CallsMade` state its properties |
| Benchmark.StopRule | src/main/kotlin/dev/mtib/aoc/AocRunner.kt:186 | the loop stops exactly when 10 s have passed, or when both 2000 samples and one second have |
| Benchmark.CallsMade | src/main/kotlin/dev/mtib/aoc/AocRunner.kt:185-192 | the number of calls is the first evaluation at which the condition fails, and at that point the timeout or both floors have been reached |
| Benchmark.CallsMadeUnique | src/main/kotlin/dev/mtib/aoc/AocRunner.kt:186 | any first failing evaluation of the condition is the stopping point |
| Benchmark.FewSamplesMeansTimeout | src/main/kotlin/dev/mtib/aoc/AocRunner.kt:186 | a run with fewer than 2000 samples always ends at the 10 s timeout |
| Benchmark.Sample | src/main/kotlin/dev/mtib/aoc/AocRunner.kt:182-192 | the loop records the duration of each call in call order, and stops at the first reading where the condition fails |
| Benchmark.Micros | src/main/kotlin/dev/mtib/aoc/AocRunner.kt:197 | each sample is converted to whole microseconds, rounding down |
| Benchmark.DivideHalfEven | src/main/kotlin/dev/mtib/aoc/AocRunner.kt:197 | the quotient is within half of the divisor of the exact value, and it is even on a tie |
| Benchmark.Average | src/main/kotlin/dev/mtib/aoc/AocRunner.kt:194-198 | there is an average exactly when there is at least one sample |
| Benchmark.AverageBounded | src/main/kotlin/dev/mtib/aoc/AocRunner.kt:194-198 | the average lies within any bounds of the last 100 samples in microseconds |
| Benchmark.ConstantAverage | src/main/kotlin/dev/mtib/aoc/AocRunner.kt:194-198 | samples that all take the same whole number of microseconds average to that number |
| Benchmark.Window | src/main/kotlin/dev/mtib/aoc/AocRunner.kt:195-197 | the last 100 samples in whole microseconds; a definition without a contract of its own: `WindowIgnoresOlderSamples`, `Average` and `BenchmarkReport` state its properties |
| Benchmark.WindowIgnoresOlderSamples | src/main/kotlin/dev/mtib/aoc/AocRunner.kt:195 | with at least 100 recent samples, earlier samples are outside the window |
| Benchmark.AverageIgnoresOlderSamples | src/main/kotlin/dev/mtib/aoc/AocRunner.kt:194-198 | with at least 100 recent samples, earlier samples do not change the average |
| Runner.Results.Send | src/main/kotlin/dev/mtib/aoc/AocRunner.kt:169 | the record is appended to the log and nothing else changes |
| Runner.Classify | src/main/kotlin/dev/mtib/aoc/AocRunner.kt:155-168 | conflicting when a known answer differs, and then shows it, or `???` when it is null; verified when it is equal; first answer when none is known |
| Runner.RunResults | src/main/kotlin/dev/mtib/aoc/AocRunner.kt:149-175 | an answer is sent whatever its verdict; `NotImplementedError` and the not-released exception are caught and send nothing; any other exception escapes |
| Runner.OneRecordPerAnswer | src/main/kotlin/dev/mtib/aoc/AocRunner.kt:169 | solving sends exactly one record per answer, carrying the new answer, conflicting or not |
| Runner.BenchOutcome | src/main/kotlin/dev/mtib/aoc/AocRunner.kt:177-215 | the benchmark crashes exactly when no call was made (an uncaught division by zero) or the solver throws something uncaught; once a call was made, it is reported exactly when the solver answers, with the calls made as its sample count and the windowed average as its figure, and skipped with the solver's own reason when the part is missing or unreleased |
| Runner.RunBenchmark | src/main/kotlin/dev/mtib/aoc/AocRunner.kt:177-215 | ends as `BenchOutcome` says and appends only that benchmark's records to the log |
| Runner.BenchmarkReport | src/main/kotlin/dev/mtib/aoc/AocRunner.kt:194-201 | a reported benchmark carries the number of calls, and an average within any bounds of the last 100 samples |
| Runner.Lookup | src/main/kotlin/dev/mtib/aoc/AocRunner.kt:116-119 | a registered unit with the day's identity, or nothing exactly when no registered unit has it |
| Runner.Plan | src/main/kotlin/dev/mtib/aoc/AocRunner.kt:121-131 | the order of a day's four calls: solving part 1 and part 2, then benchmarking part 1 and part 2, with the flags each sees; a definition without a contract of its own: `StepKinds`, `AnswersBeforeBenchmarks` and `RunUnit` state its properties |
| Runner.StepsRun | src/main/kotlin/dev/mtib/aoc/AocRunner.kt:121-142 | a found day makes between one and four of its calls of `func` |
| Runner.StepsRunStops | src/main/kotlin/dev/mtib/aoc/AocRunner.kt:121-142 | the day stops right after its first crashing call, and otherwise makes all four |
| Runner.RunPart | src/main/kotlin/dev/mtib/aoc/AocRunner.kt:130-141 | the solver sees `partMode` set to its part; the flag is cleared afterwards unless the call crashed; the call's records are appended |
| Runner.RunPhase | src/main/kotlin/dev/mtib/aoc/AocRunner.kt:124-142 | one phase calls part 1 then part 2 with `benchmarking` set for that phase, and stops at a crash |
| Runner.RunUnit | src/main/kotlin/dev/mtib/aoc/AocRunner.kt:121-142 | the calls of `func` (`runResults`, then `benchmark`) follow the plan, one trace entry each, up to the first crash; the log gains their records in order; the flags end as the last call left them |
| Runner.RunDay | src/main/kotlin/dev/mtib/aoc/AocRunner.kt:115-147 | a day that is not registered changes nothing; a found day runs its plan and changes only that unit and the log |
| Runner.StepKinds | src/main/kotlin/dev/mtib/aoc/AocRunner.kt:121-123 | the solving phase sends only answers and the benchmarking phase only benchmark figures |
| Runner.AnswersBeforeBenchmarks | src/main/kotlin/dev/mtib/aoc/AocRunner.kt:121-142 | within a day, no answer follows a benchmark figure in the log |
| Runner.AnsweringDay | src/main/kotlin/dev/mtib/aoc/AocRunner.kt:121-142 | a day whose parts both answer sends answer 1, answer 2, benchmark 1, benchmark 2, in that order |
| Runner.NoneCrashMeans | src/main/kotlin/dev/mtib/aoc/AocRunner.kt:100-102 | a schedule runs without a crash exactly when none of its days crashes |
| Runner.RunAll | src/main/kotlin/dev/mtib/aoc/AocRunner.kt:100-102 | days run in schedule order; the first crash ends the run; the log gains exactly the records of the days run; every unit looked up for a day run ends as `runDay` leaves it, and every other unit is unchanged |
| Runner.TouchedMeans | src/main/kotlin/dev/mtib/aoc/AocRunner.kt:100-102 | the units `runDay` runs for a list of days are exactly the units those days look up |
| Runner.CrashStep | src/main/kotlin/dev/mtib/aoc/AocRunner.kt:100-102 | after crash-free days, one more day leaves the run crash-free exactly when that day does not crash |
| Runner.Run | src/main/kotlin/dev/mtib/aoc/AocRunner.kt:38-113 | `main` abandons exactly when no year is registered or a token is unreadable, and then sends nothing; it reports "no day provided" when nothing is selected; otherwise it runs the selected days strictly ascending until a crash, each looked-up unit ending as `runDay` leaves it and every other unit unchanged; when it runs nothing, no unit and no log entry changes |
| AocDay01.ParseLine | src/main/kotlin/dev/mtib/aoc24/days/AocDay01.kt:26-28 | a line is accepted exactly when every piece is an `Int` and there are at least two; the first two pieces are the values; a bad number is reported before a missing column |
| AocDay01.LineRoundTrip | src/main/kotlin/dev/mtib/aoc24/days/AocDay01.kt:26-28 | two `Int`s written three spaces apart are read back as those two values |
| AocDay01.ReadColumns | src/main/kotlin/dev/mtib/aoc24/days/AocDay01.kt:17-39 | the columns hold the two values of every line, in line order; an error is that of the first bad line |
| AocDay01.BinarySearch | src/main/kotlin/dev/mtib/aoc24/days/AocDay01.kt:44 | on a sorted list, a found index holds the value; otherwise `-(ip) - 1`, where `ip` is the count of smaller values and the value is absent |
| AocDay01.SortedCollector.Emit | src/main/kotlin/dev/mtib/aoc24/days/AocDay01.kt:43-47 | inserting at the reported index keeps the state sorted, adds exactly the value, and equals insertion into the sorted list |
| AocDay01.InsertAtIsInsert | src/main/kotlin/dev/mtib/aoc24/days/AocDay01.kt:45 | among equal values, any insertion point gives the same list |
| AocDay01.InsertSorted | src/main/kotlin/dev/mtib/aoc24/days/AocDay01.kt:43-47 | insertion into a sorted list keeps it sorted |
| AocDay01.InsertPermutes | src/main/kotlin/dev/mtib/aoc24/days/AocDay01.kt:43-47 | insertion adds exactly the one value |
| AocDay01.SortSpecSorted | src/main/kotlin/dev/mtib/aoc24/days/AocDay01.kt:53-62 | the collected column is a sorted permutation of its values |
| AocDay01.SortedUnique | src/main/kotlin/dev/mtib/aoc24/days/AocDay01.kt:53-62 | two sorted lists with the same values are equal |
| AocDay01.Collect | src/main/kotlin/dev/mtib/aoc24/days/AocDay01.kt:53-57 | emitting every value into a fresh collector gives a sorted permutation of the values |
| AocDay01.CollectSorted | src/main/kotlin/dev/mtib/aoc24/days/AocDay01.kt:53-62 | the collected column is the ascending arrangement of its values, whatever the arrival order |
| AocDay01.Distance | src/main/kotlin/dev/mtib/aoc24/days/AocDay01.kt:69 | `zip { abs(l - r) }.sum()`, paired up to the shorter list; a definition without a contract of its own: `Part1` and `Part1ZeroIffSameValues` state its properties |
| AocDay01.Part1 | src/main/kotlin/dev/mtib/aoc24/days/AocDay01.kt:50-72 | the first bad line's error, or the sum of the distances between the two sorted columns, paired up to the shorter one |
| AocDay01.Part1OrderIndependent | src/main/kotlin/dev/mtib/aoc24/days/AocDay01.kt:50-72 | the answer depends only on the values of each column, not on their order |
| AocDay01.Part1ZeroIffSameValues | src/main/kotlin/dev/mtib/aoc24/days/AocDay01.kt:69 | equally long columns give 0 exactly when they hold the same values |
| AocDay01.CountingCollector.Emit | src/main/kotlin/dev/mtib/aoc24/days/AocDay01.kt:76-78 | the value's count goes up by one, starting from 0, and no other entry changes |
| AocDay01.CollectCounts | src/main/kotlin/dev/mtib/aoc24/days/AocDay01.kt:84-88 | the map has exactly the column's values as keys, each with its number of occurrences |
| AocDay01.WeightedSum | src/main/kotlin/dev/mtib/aoc24/days/AocDay01.kt:91-97 | the sum weighs every left value by its count on the right, and a missing count gives 0 |
| AocDay01.Part2 | src/main/kotlin/dev/mtib/aoc24/days/AocDay01.kt:81-100 | the first bad line's error, or the similarity score of the left column against the right one |
| AocDay01.SimilarityRemove | src/main/kotlin/dev/mtib/aoc24/days/AocDay01.kt:91-97 | removing one left value removes exactly its own term |
| AocDay01.SimilarityOrderIndependent | src/main/kotlin/dev/mtib/aoc24/days/AocDay01.kt:91-97 | the score does not depend on the order in which the left values arrive |
| Lcm.Lcm | src/main/kotlin/dev/mtib/aoc/aoc23/days/Day8.kt:63 | `lcm(a, b)` is positive and a multiple of both |
| Lcm.Bezout | src/main/kotlin/dev/mtib/aoc/aoc23/days/Day8.kt:63 | the gcd is an integer combination of its two arguments |
| Lcm.LcmLeast | src/main/kotlin/dev/mtib/aoc/aoc23/days/Day8.kt:63 | `lcm(a, b)` divides every common multiple of `a` and `b`, so it is the least one |
| Lcm.FoldLcm | src/main/kotlin/dev/mtib/aoc/aoc23/days/Day8.kt:63 | the fold from `acc` is positive, a multiple of `acc` and of every cycle length, and `acc` itself for no cycles |
| Lcm.FoldLcmLeast | src/main/kotlin/dev/mtib/aoc/aoc23/days/Day8.kt:63 | the fold divides every common multiple of `acc` and the cycle lengths |
| Day8.FirstMalformed | src/main/kotlin/dev/mtib/aoc/aoc23/days/Day8.kt:12-16 | the first node line that is too short for the position slices, or none |
| Day8.Parse | src/main/kotlin/dev/mtib/aoc/aoc23/days/Day8.kt:10-19 | no input fails at `input[0]`; otherwise parsing succeeds exactly when every line from the third on has at least 15 characters, and an error names the first short one |
| Day8.ParseNetwork | src/main/kotlin/dev/mtib/aoc/aoc23/days/Day8.kt:10-19 | the loop over the node lines builds the table `Parse` describes |
| Day8.Table | src/main/kotlin/dev/mtib/aoc/aoc23/days/Day8.kt:11-19 | the `buildMap` of node names to their left and right names, a later line replacing an earlier one; a definition without a contract of its own: `TableKeys`, `TableLastWins` and `ParseNetwork` state its properties |
| Day8.KeyOrder | src/main/kotlin/dev/mtib/aoc/aoc23/days/Day8.kt:11-19 | the map's key order, by first insertion; a definition without a contract of its own: `TableKeys` and `KeyOrderDistinct` state its properties |
| Day8.TableKeys | src/main/kotlin/dev/mtib/aoc/aoc23/days/Day8.kt:11-19 | the table's keys are exactly the names of the node lines, and the key order lists exactly them |
| Day8.TableLastWins | src/main/kotlin/dev/mtib/aoc/aoc23/days/Day8.kt:17 | a name maps to the directions of its last node line |
| Day8.KeyOrderDistinct | src/main/kotlin/dev/mtib/aoc/aoc23/days/Day8.kt:49 | each key appears once in the key order |
| Day8.StepFrom | src/main/kotlin/dev/mtib/aoc/aoc23/days/Day8.kt:24-29 | a step on `L` goes left and on `R` goes right; a missing node, no instructions and another character each fail, checked in that order |
| Day8.InstructionsCycle | src/main/kotlin/dev/mtib/aoc/aoc23/days/Day8.kt:25 | step `k` and step `k` plus the instruction count read the same instruction |
| Day8.Walk | src/main/kotlin/dev/mtib/aoc/aoc23/days/Day8.kt:21-31 | arrives at the first step count where the goal is reached, or stops at the first failing step, or runs out of bound |
| Day8.ArrivalUnique | src/main/kotlin/dev/mtib/aoc/aoc23/days/Day8.kt:23 | a walk has at most one first arrival |
| Day8.Part1 | src/main/kotlin/dev/mtib/aoc/aoc23/days/Day8.kt:7-33 | a parse error is passed on; otherwise the answer is the number of steps at which `ZZZ` is first reached from `AAA`, at least one; a failure is the walk's |
| Day8.StartNodes | src/main/kotlin/dev/mtib/aoc/aoc23/days/Day8.kt:49 | the starts are exactly the keys whose third letter is `A`, and none of them is already a goal |
| Day8.StartsAreKeys | src/main/kotlin/dev/mtib/aoc/aoc23/days/Day8.kt:49 | on a parsed input the starts are exactly the table keys ending in `A` |
| Day8.CycleLengths | src/main/kotlin/dev/mtib/aoc/aoc23/days/Day8.kt:50-62 | one count per start, each the step count of its first arrival at a node ending in `Z`; a failure is that of some start's walk, and every start before it arrives |
| Day8.ArrivalsWitnessed | src/main/kotlin/dev/mtib/aoc/aoc23/days/Day8.kt:50-62 | an arrival count for each start shows that every start arrives |
| Day8.Part2 | src/main/kotlin/dev/mtib/aoc/aoc23/days/Day8.kt:35-66 | a parse error is passed on; otherwise every start arrives, and the answer is the least common multiple of all first-arrival counts: a multiple of each that divides every other common multiple, 1 when there are no starts; a failure is that of some start's walk, every earlier start arriving |

## Left out

- Coroutines and channels are not modelled: `readChannels` launches chunks of 100 lines and sends their values on channels. The model reads the lines in order. The arrival order does not matter: `Part1OrderIndependent` and `SimilarityOrderIndependent` show the answers depend only on each column's values.
- ReadColumns: which line's error escapes first when chunks run concurrently is not modelled; the model reports the first bad line.
- `ciTimeout`, `withContext(aocDay.pool)`, `yield()`, the `cleanupScope` launches and the plotters are not modelled; `ciTimeout` is treated as transparent.
- Logging, styling and the report command string are not modelled; they only print.
- The conversion of the average to `Double` and then to a `Duration` is not modelled; the model reports the HALF_EVEN-rounded whole microseconds.
- `Results.collect` and the internals of `Results` are not modelled. The results log is a sequence of sent records plus a map of known answers.
- `AocDay.load` and the registry internals are not modelled. The registry is a sequence of unit objects, and `years()` is derived from their identities.
- Reading the puzzle input is not modelled; the solutions take the input lines as a parameter.
- The clock is an input. Where the loop condition reads `currentTimeMillis` twice, the model uses a single reading per evaluation.
- Kotlin's 32-bit `Int` and 64-bit `Long` wrap-around in the part 1 and part 2 sums, the step counters and the lcm fold is not modelled; the model uses unbounded integers.
- ParseInt32: accepts ASCII digits only, while Kotlin's `toIntOrNull` also accepts other Unicode decimal digits.
- Day8.Part1: the walk takes at most `fuel` steps, because a walk that never reaches its goal does not terminate. `OutOfFuel` marks a walk still under way at the bound.
- Day8.Part2: the same step bound applies, and the lcm here is our own subtractive gcd, standing in for the `lcm` of the utility package. The utility package is not part of this model.
- Kotlin strings are sequences of UTF-16 code units, while a Dafny `string` is a sequence of Unicode scalar values. The two agree on ASCII input but differ beyond it. This affects the fixed-position slices of a node line (Day8.kt:14-16), the instruction count and the index taken modulo it (Day8.kt:25), the third character of a name (Day8.kt:49), and the splitting and number reading of a column line (AocDay01.kt:26).
- A `Solver` behaves the same on every call of its part, in both the solving and the benchmarking phase. A solution whose answer depends on the call count, on `partMode`/`benchmarking`, or on earlier calls is not modelled.
- Runner.RunAll: requires the schedule's days to be distinct. `main` passes a sorted `Set` of days, so they always are; `Run` discharges this from strict sorting.
