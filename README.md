# Advent of Code 2018 solvers, modelled in Dafny

This project models the puzzle solvers of an Advent of Code 2018 repository: the Rust solvers `rust/src/dayNN.rs` (days 1 and 6 to 25, with three versions of day 15), and the Python scripts for days 1 to 6 and 8 to 12. The Rust solvers are functions over vectors and hash maps. Days 3, 8, 9, 10, 15, 17, 22 and 25 keep state in objects whose fields change in place. Several Python scripts work in loops over lists, dictionaries and linked nodes.

Each source file has its own Dafny module, in a file of the same name:
- `day15_v3.dfy`, for example, models `rust/src/day15_v3.rs`;
- `day05_stack.dfy` models `5/problem1_v2.py`.

Shared pieces have modules of their own:
- `Wrappers`: `Option`;
- `Text`: ASCII trimming;
- `Tokens`: splitting on whitespace and separators, and Rust's and Python's integer parsing with its printing inverse;
- `Machine`: the sixteen opcodes of days 16, 19 and 21;
- `ElfCode`: the programs of days 19 and 21, whose instruction counter lives in a register;
- `Day15Units`: the units, turns, rounds and searches the three day 15 versions share.

The model follows the source's form:
- Classes hold what the source mutates in place. Examples are the fabric of day 3, the linked marble circle of `9/problem1.py`, the combat state of day 15, the water grid of day 17, the erosion cache of day 22 and the union-find of day 25.
- Methods with loop invariants model the loops. Each is proved equal to a specification function, or to the property the source promises.
- Functions and lemmas model the code built from expressions.

Input parsing is modelled for days 1, 7, 12, 13, 15, 17, 18, 19, 20, 21, 22, 24 and 25. For the other days the operations take the parsed values: day 8, for example, starts from the list of numbers, not from the text. "## Left out" lists those parsers.

## Model

| member | source | states |
|---|---|---|
| Tokens.Word | rust/src/day07.rs:9 | a word is the longest whitespace-free prefix: it is a prefix, holds no whitespace, and ends at whitespace or the end |
| Tokens.SplitWhitespace | rust/src/day07.rs:9 | `split_whitespace` yields only non-empty words without whitespace |
| Tokens.SplitJoin | rust/src/day08.rs:55-59 | splitting words joined by single spaces gives the words back |
| Tokens.SplitOn | rust/src/day06.rs:28 | `split` on a character always yields at least one piece |
| Tokens.SplitJoinOn | rust/src/day06.rs:28 | splitting pieces joined by a separator none of them holds gives the pieces back |
| Tokens.LinesOfJoin | rust/src/day18.rs:11-25 | `lines` of lines joined by newlines gives the lines back |
| Tokens.ParseI64 | rust/src/day16.rs:30 | a parsed integer lies within 64 bits and a negative one was written with '-' |
| Tokens.ParseI32 | rust/src/day17.rs:105 | a 32-bit parse succeeds exactly when the 64-bit parse gives a value within 32 bits, and gives that value |
| Tokens.ParseUsize | rust/src/day16.rs:30 | an unsigned parse gives a value within 64 bits |
| Tokens.ShowNat | rust/src/day22.rs:79 | the rendering of a natural number is a non-empty run of digits |
| Tokens.ShowInt | rust/src/day22.rs:79 | the rendering of an integer is a single word |
| Tokens.ShowNatValue | rust/src/day22.rs:79 | the digits of the rendering have the number as their value |
| Tokens.ParseShowI64 | rust/src/day16.rs:30 | parsing the rendering of a 64-bit integer gives it back |
| Tokens.ParseShowUsize | rust/src/day16.rs:30 | parsing the rendering of an unsigned 64-bit integer gives it back |
| Tokens.ParseShowI32 | rust/src/day17.rs:105 | parsing the rendering of a 32-bit integer gives it back |
| Tokens.ShowIntChars | rust/src/day17.rs:105 | a rendering holds only digits and '-' |
| Tokens.Find | rust/src/day24.rs:57 | `find` gives the first index of the character, or None when it does not occur |
| Tokens.SplitStr | rust/src/day17.rs:102 | `split` on a string always yields at least one piece |
| Tokens.SplitStrJoin | rust/src/day17.rs:102 | splitting pieces joined by a separator string whose first character none of them holds gives the pieces back |
| Day01.ParseI32 | rust/src/day01.rs:7 | `parse::<i32>` accepts only a sign or digit first and only values within 32 bits |
| Day01.Changes | rust/src/day01.rs:12-15 | the changes are the trimmed lines that parse, at most one per line, in order |
| Day01.SumAppend | rust/src/day01.rs:5-8 | the sum of two lists of changes is the sum of their sums |
| Day01.Part1Append | rust/src/day01.rs:4-9 | part 1 adds up line by line: it splits over concatenation, is 0 on no lines, and a line that does not parse counts 0 |
| Day01.ChangesAppend | rust/src/day01.rs:12-15 | the parsed changes of two blocks of lines are the two lists concatenated |
| Day01.CycleIndex | rust/src/day01.rs:21 | `cycle()` visits a valid index of the list at every step |
| Day01.SeenBeforeMeans | rust/src/day01.rs:18-25 | a frequency is in the set after n steps exactly when some running total before step n equals it |
| Day01.NoRepeatUpToMeans | rust/src/day01.rs:21-25 | no repeat within n steps exactly when every total up to step n is new |
| Day01.FirstRepeatUnique | rust/src/day01.rs:21-25 | the first repeated total is reached at one step only |
| Day01.Part2 | rust/src/day01.rs:11-29 | the result is the running total at the first step whose total was seen before (0 counts as seen); None means no repeat within the step budget |
| Day01.Part1Samples | rust/src/day01.rs:43-48 | "+1, -2, +3, +1" sums to 3 |
| Day01.Part1NegativeSample | rust/src/day01.rs:43-48 | "-1, -2, -3" sums to -6 |
| Day01.ParseLine | rust/src/day01.rs:7 | a trimmed sign-and-digit line parses to its signed value |
| Day01.Part2Sample | rust/src/day01.rs:51-57 | on +1, -2, +3, +1 the first repeated frequency is 2, at step 6 |
| Day01Script.FirstRepeat | 1/problem2.py:35-45 | the script prints the running total at the first step whose total is already in `freq`, the same first repeat as the Rust solver |
| Text.Trim | rust/src/day01.rs:7 | the trimmed text is no longer than the line and neither starts nor ends with whitespace |
| Text.TrimRemovesEnds | rust/src/day01.rs:7 | trimming removes whitespace only, and only at the two ends |
| Day02Checksum.Count | 2/problem1.py:43 | `l.count(c)` is at most the length of the line |
| Day02Checksum.CountIsMultiplicity | 2/problem1.py:43 | `l.count(c)` is the number of times c occurs in the line |
| Day02Checksum.SomeAmongFirstMeans | 2/problem1.py:42-49 | the scan over the first n characters finds a count of k exactly when one of them occurs k times |
| Day02Checksum.HasExactlyMultiset | 2/problem1.py:42-49 | whether some character occurs exactly k times depends only on the letters, not their order |
| Day02Checksum.LineFlags | 2/problem1.py:40-49 | `has2` holds exactly when some character occurs exactly twice and `has3` exactly when some occurs three times, the early `break` notwithstanding |
| Day02Checksum.LinesWith | 2/problem1.py:38-53 | at most every line is counted |
| Day02Checksum.LinesWithAppend | 2/problem1.py:38-53 | the line counts of two blocks of lines add up |
| Day02Checksum.LinesWithStep | 2/problem1.py:50-53 | each stripped line adds one to a counter exactly when it has the property |
| Day02Checksum.Checksum | 2/problem1.py:36-54 | `count2` and `count3` are the numbers of stripped lines with a letter exactly twice and exactly three times, and the checksum is their product |
| Day02Checksum.SampleFlags | 2/problem1.py:27 | "abbcde" has a letter twice and "abcccd" a letter three times |
| Day02Common.StripAll | 2/problem2.py:36 | every line is stripped, and no line is lost |
| Day02Common.Agreeing | 2/problem2.py:45-51 | the agreeing characters are no more than the line |
| Day02Common.AgreeingPlusDifferences | 2/problem2.py:45-51 | each position is either a difference or an agreeing character |
| Day02Common.OneDifferenceDropsIt | 2/problem2.py:45-54 | two lines differing at one position only give one difference, and the printed string is the line without that position |
| Day02Common.AgreeAll | 2/problem2.py:45-51 | equal lines have no difference and agree everywhere |
| Day02Common.Compare | 2/problem2.py:45-51 | the loop over positions counts the differences and collects the agreeing characters |
| Day02Common.Run | 2/problem2.py:36-54 | the script prints, and exits, exactly as the pairwise scan of the stripped lines says |
| Day02Common.PairsFromAfter | 2/problem2.py:38-39 | the pairs still to come lie after the current one |
| Day02Common.PairsFromComplete | 2/problem2.py:38-39 | every pair of indices i < j is visited |
| Day02Common.PairsFromDistinct | 2/problem2.py:38-39 | no pair is visited twice |
| Day02Common.ScanPrintsCommonLetters | 2/problem2.py:38-54 | on lines of one length, the scan prints the agreeing characters of exactly the pairs with one difference, in visiting order, and never exits |
| Day02Common.CommonLettersShorter | 2/problem2.py:53-54 | every printed string is one character shorter than the lines |
| Day02Common.SampleCommonLetters | 2/problem2.py:27 | "fghij" and "fguij" differ once and print "fgij" |
| Day02Counter.Counter | python/2/problem1_counter.py:40 | `Counter` maps exactly the characters of the line to their numbers of occurrences |
| Day02Counter.Check | python/2/problem1_counter.py:41 | `check` holds 2 or 3 exactly when some character occurs that often |
| Day02Counter.CheckAgrees | python/2/problem1_counter.py:40-45 | `2 in check` (or 3) exactly when some character occurs that many times, as in 2/problem1.py |
| Day02Counter.LineFlags | python/2/problem1_counter.py:40-45 | the two tests agree with the counting script's flags |
| Day02Counter.Checksum | python/2/problem1_counter.py:37-46 | both counters and the product are those of 2/problem1.py |
| Day03Fabric.CoverCount | 3/problem1.py:62-67 | a cell is claimed at most once per claim |
| Day03Fabric.RowAtLeast | 3/problem1.py:69-75 | at most every cell of a row is counted |
| Day03Fabric.Fabric.constructor | 3/problem1.py:51-54 | a new fabric is 1000 by 1000 zeros |
| Day03Fabric.Fabric.AddClaim | 3/problem1.py:62-67 | adding a claim adds one to every cell of its rectangle and leaves every other cell as it was |
| Day03Fabric.Fabric.CountTwoOrMore | 3/problem1.py:69-75 | the count is the number of cells holding 2 or more |
| Day03Fabric.RowSumAfterClaim | 3/problem1.py:62-67 | a claim raises the sum of a row prefix by the part of its width inside the prefix |
| Day03Fabric.GridSumAfterClaim | 3/problem1.py:62-67 | a claim raises the sum over the whole fabric by its area |
| Day03Fabric.AreaBelowIsProduct | 3/problem1.py:62-67 | the cells a claim covers in the first n rows are its rows there times its width |
| Day03Fabric.RowAfterClaim | 3/problem1.py:62-67 | a claim raises a row's sum by its width on the rows it spans, and leaves other rows' sums alone |
| Day03Fabric.GridSumPrefix | 3/problem1.py:62-67 | the sum over the first n rows rises by the claim's area within them |
| Day03Fabric.CoverGrid | 3/problem1.py:91-97 | the fabric after all claims is a 1000 by 1000 grid |
| Day03Fabric.GridsEqual | 3/problem1.py:51-54 | two grids that agree on every cell are equal |
| Day03Fabric.OverlapCount | 3/problem1.py:91-100 | the script's answer is the number of cells covered by two or more claims, each cell holding how many claims cover it |
| Day03Check.Passing | 3/problem2.py:79-82 | at most every claim is printed |
| Day03Check.ClaimFabric.constructor | 3/problem2.py:44-48 | a new fabric has no claims and a zero grid |
| Day03Check.ClaimFabric.AddClaim | 3/problem2.py:56-62 | the claim is appended to the list and the grid is raised by one on its rectangle |
| Day03Check.ClaimFabric.CheckClaim | 3/problem2.py:72-77 | a claim passes exactly when every cell of its rectangle holds 1 |
| Day03Check.ClaimFabric.CheckClaims | 3/problem2.py:79-82 | the printed claims are those passing the check, in the order added |
| Day03Check.CoveredOnce | 3/problem2.py:72-77 | a cell of claim i holds 1 exactly when no other claim covers it |
| Day03Check.NotCovered | 3/problem2.py:72-77 | a cell holds 0 exactly when no claim covers it |
| Day03Check.IntactIffNoOverlap | 3/problem2.py:72-82 | a claim passes the check exactly when it overlaps no other claim |
| Day03Check.NonOverlapping | 3/problem2.py:98-106 | the script prints exactly the claims whose cells all hold 1 once every claim is added |
| Day04Guards.KindOf | python/4/problem2.py:139-144 | an event starts a shift exactly when the text holds "Guard", falls asleep when it holds "falls asleep" but not "Guard", and is left unclassified when it holds none of the three phrases |
| Day04Guards.NewEvent | python/4/problem2.py:130-144 | building an event fails exactly when the text has a '#' but no guard number after it; otherwise it keeps the record's timestamp and minute, the classification, and a guard exactly when there is a '#' |
| Day04Guards.CollectMeans | python/4/problem2.py:149-162 | building `events` succeeds exactly when the timestamps are distinct and every record makes an event; the keys are then exactly the timestamps, each holding its record's event |
| Day04Guards.BuildEvents | python/4/problem2.py:149-162 | the loop over the lines builds the map as the specification says, stopping at the first repeated timestamp |
| Day04Guards.CrashedStays | python/4/problem2.py:158 | once a record raises, the whole script raises |
| Day04Guards.ExitedStays | python/4/problem2.py:159-161 | once a timestamp repeats, the script exits whatever follows |
| Day04Guards.Initial | python/4/problem2.py:164-166 | the starting tallies meet the replay's invariant |
| Day04Guards.AddMinute | python/4/problem2.py:181-184 | one minute keeps 60 entries in every array and leaves the current guard and nap start alone |
| Day04Guards.AddMinutes | python/4/problem2.py:179-184 | a nap keeps 60 entries in every array and leaves the current guard and nap start alone |
| Day04Guards.SumAtUpdate | python/4/problem2.py:181-184 | changing one listed guard's array changes the sum over guards by the same amount |
| Day04Guards.AddMinuteValid | python/4/problem2.py:181-184 | one minute keeps `total_sleep` equal, minute by minute, to the sum over the guards' arrays |
| Day04Guards.AddMinutesValid | python/4/problem2.py:179-184 | a whole nap keeps that invariant |
| Day04Guards.AddMinutesTotal | python/4/problem2.py:179-181 | a nap from s to e adds one to each minute of `total_sleep` from s to e - 1 and to no other |
| Day04Guards.AddMinutesOwn | python/4/problem2.py:182-184 | a non-empty nap creates the current guard's array if missing and adds one to each of its minutes from s to e - 1 |
| Day04Guards.AddMinutesOthers | python/4/problem2.py:179-184 | a nap leaves every other guard's array as it was |
| Day04Guards.Apply | python/4/problem2.py:168-184 | each event keeps the replay's invariant when it does not raise |
| Day04Guards.Replay | python/4/problem2.py:167-184 | a replay that does not raise ends in a state that meets the invariant |
| Day04Guards.ReplayNoneStays | python/4/problem2.py:167-184 | once an event raises, the rest of the replay does not recover |
| Day04Guards.InOrder | python/4/problem2.py:167-168 | the events are taken in the given timestamp order, one per timestamp |
| Day04Guards.NapLoop | python/4/problem2.py:179-184 | the `range` loop does what the nap specification says, raising on a minute past 59 |
| Day04Guards.ReplayEvents | python/4/problem2.py:164-184 | the replay loop over the sorted timestamps computes the specified replay |
| Day04Guards.FirstMax | python/4/problem2.py:186-189 | `max(enumerate(a))` gives the first index holding a largest entry |
| Day04Guards.PickIsBest | python/4/problem2.py:187-193 | the chosen guard's largest minute count is above -1, at least every guard's, and above every guard listed before it |
| Day04Guards.Choose | python/4/problem2.py:186-195 | the final loop prints the chosen guard times its sleepiest minute, or fails when no guard slept or the guard is None |
| Day04Guards.SortedEpochsKeys | python/4/problem2.py:167 | the sorted timestamps are exactly the keys of `events`, ascending |
| Day04Guards.Script | python/4/problem2.py:149-195 | the whole script over the parsed records computes the specified run: build, replay in timestamp order, choose |
| Day05Stack.Upper | 5/problem2_v2.py:52 | a lower-case ASCII letter maps to its capital, 32 code points down; anything else is returned unchanged |
| Day05Stack.Lower | 5/problem2_v2.py:52 | a capital ASCII letter maps to its lower-case form, 32 code points up; anything else is returned unchanged |
| Day05Stack.Swap | 5/problem1_v2.py:43-46 | swapping case turns lower-case letters into capitals and capitals into lower-case letters, in both directions |
| Day05Stack.SwapInvolution | 5/problem1_v2.py:43-46 | on a letter, the swap is its own inverse and never a fixed point, so `M` pairs each letter with a different one |
| Day05Stack.BuildSwapMap | 5/problem1_v2.py:43-46 | the loop over a..z builds a map whose keys are exactly the 52 letters, each mapped to its case swap |
| Day05Stack.ReactsSymmetric | 5/problem1_v2.py:54 | the reaction test is symmetric: if `c == M[top]` then `top == M[c]` |
| Day05Stack.ReduceFrom | 5/problem1_v2.py:53-57 | from a stack with no reacting neighbours, feeding the line keeps the stack unreactive, never longer than stack plus line, and holding only letters (or the line's last character) |
| Day05Stack.Reduce | 5/problem1_v2.py:48-61 | the stack left after one line has no two adjacent reacting units and is no longer than the line |
| Day05Stack.ReduceFromParity | 5/problem1_v2.py:53-57 | each pop removes two units, so stack plus input minus result is even |
| Day05Stack.ReduceParity | 5/problem1_v2.py:61 | the printed length differs from the line's length by an even number |
| Day05Stack.ReduceLine | 5/problem1_v2.py:49-57 | the stack loop over one line, driven by the map `M`, leaves exactly the reduced polymer |
| Day05Stack.Lengths | 5/problem1_v2.py:48-61 | one length is printed per input line, and it is the length of that trimmed line's reduced polymer |
| Day05Stack.OneReaction | 5/problem1_v2.py:54-55 | removing one reacting adjacent pair is a step of the reaction relation |
| Day05Stack.ReducesToTrans | 5/problem1_v2.py:53-57 | reactions compose: a chain of reaction steps is itself a reaction |
| Day05Stack.ReducesToAppend | 5/problem1_v2.py:53-57 | a reaction inside a prefix stays a reaction when more units follow |
| Day05Stack.ReducesToPrepend | 5/problem1_v2.py:53-57 | a reaction inside a suffix stays a reaction when units precede it |
| Day05Stack.PopIsReaction | 5/problem1_v2.py:54-55 | popping the top because the next unit is its case swap removes a reacting pair |
| Day05Stack.StepIsReaction | 5/problem1_v2.py:54-57 | one push-or-pop step of the stack extends a reaction of the prefix to a reaction of the longer prefix |
| Day05Stack.ReduceIsReaction | 5/problem1_v2.py:53-57 | the stack's result is reachable from the polymer by removing reacting pairs only |
| Day05Stack.ReduceFromAppend | 5/problem1_v2.py:53-57 | running the stack over x then y is running it over x + y |
| Day05Stack.PairCancels | 5/problem1_v2.py:54-55 | feeding a reacting pair to an unreactive stack leaves the stack as it was |
| Day05Stack.ReactionKeepsReduce | 5/problem1_v2.py:53-57 | removing any reacting pair anywhere in the polymer does not change the stack's result |
| Day05Stack.ReducesToKeepsReduce | 5/problem1_v2.py:53-57 | every polymer reachable by reactions reduces to the same stack result |
| Day05Stack.ReduceOfReduced | 5/problem1_v2.py:53-57 | a polymer with no reacting neighbours passes through the stack unchanged |
| Day05Stack.NormalFormUnique | 5/problem1_v2.py:53-57 | any fully reacted polymer reachable from the input is exactly the stack's result, so the answer does not depend on reaction order |
| Day05Stack.SampleReduce | 5/problem1_v2.py:34 | the sample "abBA" reacts away completely |
| Day05Stack.SampleUnreactive | 5/problem1_v2.py:34 | the sample "aabAAB" has no reaction and is left unchanged |
| Day05Filter.Letter | 5/problem2_v2.py:43 | the k-th entry of `alpha` is a lower-case letter |
| Day05Filter.Remove | 5/problem2_v2.py:52 | the filtered line is no longer than the line and contains a character exactly when the line does and neither of its case forms is the removed letter |
| Day05Filter.Removed | 5/problem2_v2.py:52-62 | the reduced length after removing one letter is at most the line's length |
| Day05Filter.BestIsLeast | 5/problem2_v2.py:50-62 | the running minimum over the first n letters is at most each letter's reduced length, never above the 1e5 start, equals one of them or the start, and is at most the line's length once a letter was tried |
| Day05Filter.Shortest | 5/problem2_v2.py:50-62 | the loop over the 26 letters computes that running minimum |
| Day05Filter.LettersReducible | 5/problem2_v2.py:52-61 | a line of letters only can always be fed to the stack loop |
| Day05Filter.Script | 5/problem2_v2.py:49-66 | with no input lines nothing is printed; otherwise the printed answer is the minimum for the last line, since `ans` is reset per line and printed once after the loop |
| Day05Passes.Filtered | python/5/problem2.py:50 | the filtered line is no longer than the line and keeps exactly the characters whose lower-case form is not the removed letter |
| Day05Passes.SweptFrom | python/5/problem2.py:57-71 | the sweep from index i keeps at most the remaining characters, and one fewer when the next one is skipped |
| Day05Passes.Sweep | python/5/problem2.py:57-73 | one pass over the line never makes it longer |
| Day05Passes.Pass | python/5/problem2.py:57-73 | the enumerate loop with its `skip` flag builds exactly the swept line |
| Day05Passes.Settled | python/5/problem2.py:53-73 | repeating passes while the line shrinks and has two or more units ends with a line no longer than the start |
| Day05Passes.Passes | python/5/problem2.py:53-73 | the `while N > len(line) >= 2` loop computes the settled line |
| Day05Passes.Lengths | python/5/problem2.py:41-81 | 26 lengths are printed per input line, the k-th being the settled length after removing the k-th letter |
| Day05Passes.FullSweepNoReaction | python/5/problem2.py:59-71 | a sweep that removes nothing returns the line unchanged and proves no two neighbours react |
| Day05Passes.SettledNoReaction | python/5/problem2.py:54 | when the passes stop, no two adjacent units of the line react |
| Day05Passes.SweepKeepsParity | python/5/problem2.py:59-71 | the corrected sweep removes units in pairs |
| Day05Passes.SettledKeepsParity | python/5/problem2.py:53-73 | the corrected passes remove an even number of units |
| Day05Passes.Reacts32Letters | python/5/problem2.py:62 | on letters, "code points differ by 32" is exactly the case-swap reaction |
| Day05Passes.SweepIsReaction | python/5/problem2.py:59-71 | the corrected sweep only removes reacting pairs |
| Day05Passes.SweepDrops | python/5/problem2.py:62-65 | skipping a reacting pair is a reaction step |
| Day05Passes.SweepKeeps | python/5/problem2.py:62-63 | keeping a unit that does not react with its successor keeps the sweep a reaction |
| Day05Passes.SettledIsReduce | python/5/problem2.py:53-73 | with the last-unit test corrected, the settled line is reachable by reactions and equals the stack's reduced polymer |
| Day05Passes.FilteredIsRemove | python/5/problem2.py:50 | filtering by lower-case form is the same as the other script's two-sided filter |
| Day05Passes.CorrectedAgrees | python/5/problem2.py:47-81 | with the correction, the printed length for each letter equals the other script's reduced length for that letter |
| Day05Passes.LastUnitDropped | python/5/problem2.py:66-68 | as written, "aAa" settles to "" because the last unit is compared with the one before it even when that one was already dropped; the corrected sweep gives "a", the true reduction |
| Day06.Abs | rust/src/day06.rs:19 | the absolute value is non-negative and is the argument or its negation |
| Day06.Dist | rust/src/day06.rs:18-20 | the Manhattan distance is non-negative and zero exactly for the same point |
| Day06.DistSymmetric | rust/src/day06.rs:18-20 | the distance from p to q is the distance from q to p |
| Day06.DistTriangle | rust/src/day06.rs:18-20 | the Manhattan distance obeys the triangle inequality |
| Day06.Scan | rust/src/day06.rs:57-70 | after the first n points the recorded closest index, if any, is among them |
| Day06.ScanMeans | rust/src/day06.rs:57-70 | once a point was seen (and distances stay below `i32::MAX`), the closest index is the first at the least distance, `min_dist` is that distance, and `tie` holds exactly when another point is equally close |
| Day06.ClosestPoint | rust/src/day06.rs:57-70 | the enumerate loop computes the scan's closest index and tie flag |
| Day06.OwnerIsStrictlyClosest | rust/src/day06.rs:57-82 | a cell is credited to point i exactly when every other point is strictly farther from it |
| Day06.Hull | rust/src/day06.rs:41-44 | the bounding box contains every point and each of its four sides is reached by some point |
| Day06.Bounds | rust/src/day06.rs:99-102 | widened by a margin, the box keeps every point at least that margin inside each side |
| Day06.VisitCell | rust/src/day06.rs:53-82 | visiting one more cell of a column adds exactly that cell's credit |
| Day06.NextColumn | rust/src/day06.rs:52-53 | finishing a column is starting the next one |
| Day06.EmptyColumn | rust/src/day06.rs:53 | an empty y range credits nothing |
| Day06.CreditCell | rust/src/day06.rs:54-82 | crediting one cell keeps `areas` equal to the owned-cell counts so far and `infinite_areas` equal to the owners of boundary cells so far |
| Day06.CreditColumn | rust/src/day06.rs:53-83 | the inner loop credits one full column and keeps both invariants |
| Day06.CreditBox | rust/src/day06.rs:52-84 | after the whole box, `areas` has a key exactly for each point owning a cell, holding its cell count, and `infinite_areas` holds exactly the points owning a boundary cell |
| Day06.Part1 | rust/src/day06.rs:37-93 | no points make the bounding-box `unwrap` fail; otherwise the answer is at least every finite area and is one of them, or 0 when there is none |
| Day06.LargestFinite | rust/src/day06.rs:87-92 | the maximum over the keys not in `infinite_areas` is absent exactly when every key is infinite, bounds every finite area and is attained |
| Day06.TotalDist | rust/src/day06.rs:111-114 | the total distance to all points is non-negative |
| Day06.CountSafeColumn | rust/src/day06.rs:107-119 | the inner loop counts the column's cells whose total distance is below the limit |
| Day06.Part2 | rust/src/day06.rs:95-123 | no points make the `unwrap` fail; otherwise the result counts the cells of the box widened by 100 whose total distance is below `max_distance` |
| Day06.ColSafeBounded | rust/src/day06.rs:107-119 | a column contributes at most one per cell |
| Day06.RegionSafeBounded | rust/src/day06.rs:106-120 | the region size is at most the number of cells of the box |
| Day06.ColSafeMonotone | rust/src/day06.rs:116 | a larger limit never makes a column's count smaller |
| Day06.RegionSafeMonotone | rust/src/day06.rs:116 | a larger `max_distance` never makes the region smaller |
| Day06.NothingBelowZero | rust/src/day06.rs:116 | with a limit of zero or less no cell is safe |
| Day06.ColNothingBelowZero | rust/src/day06.rs:116 | with limit zero no cell of a column is safe |
| Day06Script.Dist | python/6/problem2.py:38-39 | the distance is non-negative |
| Day06Script.DistAgrees | python/6/problem2.py:38-39 | the script's `dist(x, y)` is the Manhattan distance used by the other solver |
| Day06Script.ReadPoints | python/6/problem2.py:84-93 | one point per line, numbered from 1 in input order, with the line's coordinates |
| Day06Script.Total | python/6/problem2.py:101-110 | the total distance is non-negative |
| Day06Script.RowSafe | python/6/problem2.py:97-112 | a row prefix of x cells holds at most x safe cells |
| Day06Script.GridSafe | python/6/problem2.py:96-112 | the first y rows of an N-wide grid hold at most y times N safe cells |
| Day06Script.MarkArea | python/6/problem2.py:67-112 | the N by N `area` holds 1 exactly at the cells whose total distance is below 10000 and 0 elsewhere |
| Day06Script.RowSumIsCount | python/6/problem2.py:117-118 | summing a marked row counts its safe cells |
| Day06Script.SumArea | python/6/problem2.py:116-118 | the total is the sum of all rows |
| Day06Script.TotalIsSafeCount | python/6/problem2.py:116-119 | the sum over the marked rows is the number of safe cells |
| Day06Script.Script | python/6/problem2.py:84-119 | the printed total is the number of cells of the N by N grid whose total distance is below 10000 |
| Day06Script.TotalAtLeastEach | python/6/problem2.py:110-111 | the total is at least the distance to any one point, so a cell 10000 or more from some point is never marked |
| Day07.DepsInSteps | rust/src/day07.rs:4-22 | every step with prerequisites, and every prerequisite, is in `all_steps` |
| Day07.ParseInput | rust/src/day07.rs:4-22 | the loop over lines of at least ten words builds `all_steps` and `dependencies` as the line-by-line specification says, each step's prerequisites in line order |
| Day07.LeastExists | rust/src/day07.rs:39-40 | a non-empty set of steps has an alphabetically least member |
| Day07.Least | rust/src/day07.rs:39-40 | `available[0]` after sorting is a member of the set and at most every member |
| Day07.LeastOf | rust/src/day07.rs:39-40 | the search computes that least step |
| Day07.SmallestCard | rust/src/day07.rs:98 | taking the first k sorted steps takes at most k of them |
| Day07.Retain | rust/src/day07.rs:48 | `retain` keeps exactly the prerequisites other than the finished step |
| Day07.Cleared | rust/src/day07.rs:47-49 | clearing a step keeps every key and retains each list without that step |
| Day07.Steps | rust/src/day07.rs:28-50 | the `while !all_steps.is_empty()` loop returns the order the specification gives, and fails (the `available[0]` panic) exactly when it does |
| Day07.Part1 | rust/src/day07.rs:24-53 | part 1 is that order over the parsed steps and dependencies |
| Day07.OrderEmitsEach | rust/src/day07.rs:28-50 | a completed order lists every step exactly once |
| Day07.OrderRespectsDeps | rust/src/day07.rs:28-50 | in a completed order every prerequisite comes before the step needing it |
| Day07.ReadyAfterStep | rust/src/day07.rs:30-49 | removing a step and clearing it from the lists readies the same steps as counting it done |
| Day07.GreedyStep | rust/src/day07.rs:39-44 | putting the least ready step in front of a greedy order of the rest gives a greedy order |
| Day07.OrderIsGreedy | rust/src/day07.rs:28-50 | each step of the order is the alphabetically least of those whose prerequisites all come earlier |
| Day07.GreedyFirst | rust/src/day07.rs:39-40 | an order starting with the least ready step is greedy at its first position |
| Day07Workers.Duration | rust/src/day07.rs:99 | a step takes `base_time` plus its letter's position, A being 1, so at least `base_time + 1` |
| Day07Workers.Without | rust/src/day07.rs:74-76 | a list keeps exactly the prerequisites not yet finished |
| Day07Workers.ClearAll | rust/src/day07.rs:69-77 | removing the finished steps keeps every key and clears each list of them |
| Day07Workers.Finish | rust/src/day07.rs:63-77 | collecting finished steps never adds a running step |
| Day07Workers.StartMap | rust/src/day07.rs:98-101 | assigning steps adds exactly those steps to `in_progress` |
| Day07Workers.StartMapAdd | rust/src/day07.rs:98-101 | assigning one more step inserts it with its duration |
| Day07Workers.StartMapNone | rust/src/day07.rs:98-101 | assigning nothing leaves `in_progress` unchanged |
| Day07Workers.LeastKeyBelow | rust/src/day07.rs:105 | a non-empty `in_progress` has a step with the least remaining time |
| Day07Workers.MinKey | rust/src/day07.rs:105 | that step is running and no step has less time left |
| Day07Workers.MinRemaining | rust/src/day07.rs:105 | `min_time` is at most every remaining time |
| Day07Workers.Shift | rust/src/day07.rs:106-108 | subtracting `min_time` keeps the running steps |
| Day07Workers.Idle | rust/src/day07.rs:98 | while no more than `num_workers` steps run, the idle workers and the running steps add up to `num_workers` |
| Day07Workers.Start | rust/src/day07.rs:84-101 | after assigning work the running steps are the old ones plus the first idle-count available steps in alphabetical order |
| Day07Workers.InitialSane | rust/src/day07.rs:56-59 | the start state keeps the scheduling invariant: within capacity, only known steps, lists tracking completion, prerequisites done |
| Day07Workers.FinishSane | rust/src/day07.rs:63-77 | collecting finished steps keeps the invariant |
| Day07Workers.StartSane | rust/src/day07.rs:84-101 | assigning work keeps the invariant: never more steps than workers, and no step starts before its prerequisites are complete |
| Day07Workers.StartBounded | rust/src/day07.rs:98 | taking at most the idle count keeps the running steps within `num_workers` |
| Day07Workers.StartWithin | rust/src/day07.rs:85-93 | only available steps of `all_steps` start |
| Day07Workers.StartPrereqs | rust/src/day07.rs:85-101 | a step starts only when all its prerequisites are complete |
| Day07Workers.SaneParts | rust/src/day07.rs:56-111 | the four parts of the invariant make it up |
| Day07Workers.TracksSame | rust/src/day07.rs:69-77 | tracking depends only on the lists and the completed set |
| Day07Workers.TakenReady | rust/src/day07.rs:87-91 | an available step has all its original prerequisites completed |
| Day07Workers.AdvanceSane | rust/src/day07.rs:103-110 | advancing time keeps the invariant |
| Day07Workers.SameKeysSane | rust/src/day07.rs:103-110 | changing only remaining times keeps the invariant |
| Day07Loop.Assign | rust/src/day07.rs:84-101 | the assignment loop starts the steps the specification's `Start` gives |
| Day07Loop.MinOfValues | rust/src/day07.rs:105 | the loop finds the least remaining time |
| Day07Loop.Workers | rust/src/day07.rs:56-113 | starting from nothing done, the loop returns the schedule's finishing time |
| Day07Loop.Run | rust/src/day07.rs:61-111 | from any state, the loop returns what the fuelled schedule gives |
| Day07Loop.Round | rust/src/day07.rs:84-110 | one round assigns work and then advances time |
| Day07Loop.AdvanceTime | rust/src/day07.rs:103-110 | advancing time subtracts the least remaining time from every running step and adds it to `time` |
| Day07Loop.ScheduleEnds | rust/src/day07.rs:79-82 | once every step is complete, the schedule returns `time` |
| Day07Loop.ScheduleStuck | rust/src/day07.rs:98 | when more steps run than there are workers, `num_workers - in_progress.len()` underflows and the schedule fails |
| Day07Loop.ScheduleStep | rust/src/day07.rs:61-111 | one round of the loop is one step of the schedule |
| Day07Loop.ScheduleRound | rust/src/day07.rs:61-111 | the schedule from a state equals the schedule from the state after one round, with one less fuel |
| Day07Loop.Part2 | rust/src/day07.rs:55-114 | part 2 is the schedule over the parsed steps |
| Day07Loop.ScheduleEndsComplete | rust/src/day07.rs:61-113 | a schedule that returns ends in a state that keeps the invariant with every step complete, and returns that state's time |
| Day07Loop.ScheduleRuns | rust/src/day07.rs:61-111 | a schedule that returns had fuel left and never had more running steps than workers |
| Day07Loop.EndsCarried | rust/src/day07.rs:61-113 | the end-state property carries over to an equal result |
| Day07Loop.AllFinished | rust/src/day07.rs:79-82 | when as many steps are complete as there are steps, the completed set is `all_steps` |
| Day07Loop.NextSane | rust/src/day07.rs:61-111 | one round of the loop keeps the invariant |
| Day08.SumAppend | rust/src/day08.rs:30 | the sum of two concatenated lists is the sum of the sums |
| Day08.Count | rust/src/day08.rs:16-21 | `0..n` runs n times for a non-negative n and not at all for a negative one |
| Day08.Encode | rust/src/day08.rs:9-27 | a node's encoding is its two counts followed by its children and metadata, so at least two numbers |
| Day08.Decode | rust/src/day08.rs:9-27 | a successful parse reads at least the two header numbers and stays inside the input; reading past the end fails (the index panic) |
| Day08.DecodeChildren | rust/src/day08.rs:16-18 | parsing k children yields exactly k nodes and stays inside the input |
| Day08.Parse | rust/src/day08.rs:9-27 | the recursive parser with its moving `index` returns exactly the decoded node and the index after it, and fails exactly when decoding does |
| Day08.PrependNothing | rust/src/day08.rs:16-18 | pushing no children changes nothing |
| Day08.PrependTwice | rust/src/day08.rs:16-18 | pushing children one by one is pushing them all |
| Day08.MatchesPart | rust/src/day08.rs:9-27 | a part of an encoding found in the input is found at the matching offset |
| Day08.MatchedSlice | rust/src/day08.rs:9-27 | an encoding found at an index is the slice of the input there |
| Day08.DecodeEncode | rust/src/day08.rs:9-27 | wherever a node's encoding sits in the input, parsing there gives back the node and the index just past the encoding |
| Day08.DecodeEncodeAll | rust/src/day08.rs:16-18 | parsing the encodings of a list of children gives back the list |
| Day08.DecodeEncoded | rust/src/day08.rs:62-67 | parsing an encoded tree from index 0, whatever follows it, gives the tree back |
| Day08.DecodeIsEncoding | rust/src/day08.rs:9-27 | a successful parse consumes exactly the length of the parsed node's encoding, and on non-negative input the consumed slice is that encoding |
| Day08.DecodeChildrenIsEncoding | rust/src/day08.rs:16-18 | the same for a run of children |
| Day08.SumMetadataIsTotal | rust/src/day08.rs:29-35 | `sum_metadata` is the sum of all metadata entries anywhere in the tree |
| Day08.SumChildrenIsTotal | rust/src/day08.rs:31-33 | the children's sums add up to the sum of all their metadata |
| Day08.ReferencesPrefix | rust/src/day08.rs:44-48 | the value from the first k entries does not depend on later entries |
| Day08.ReferencesSuffix | rust/src/day08.rs:44-48 | the value from a split metadata list is the sum over the two halves |
| Day08.ValueSplits | rust/src/day08.rs:41-50 | a node with children has the value of its metadata halves added |
| Day08.ValueOfEntry | rust/src/day08.rs:45-47 | one entry contributes the value of the child it names, counting from 1, and nothing when out of range |
| Day08.Part1 | rust/src/day08.rs:62-67 | part 1 succeeds exactly when the input parses |
| Day08.Part2 | rust/src/day08.rs:69-74 | part 2 succeeds exactly when the input parses |
| Day08.SampleEncoding | rust/src/day08.rs:87 | the sample tree encodes as the sample input |
| Day08.SampleDecodes | rust/src/day08.rs:87 | the sample input parses to the sample tree, consuming all 16 numbers |
| Day08.SampleSums | rust/src/day08.rs:87 | the metadata sums of the sample's nodes |
| Day08.SamplePart1 | rust/src/day08.rs:89-92 | part 1 of the sample is 138 |
| Day08.SamplePart2 | rust/src/day08.rs:94-97 | part 2 of the sample is 66 |
| Day08Tree.DigitChar | 8/problem2.py:114 | a digit is a character '0' to '9' |
| Day08Tree.Decimal | 8/problem2.py:114 | a number's decimal form has at least one digit |
| Day08Tree.DecimalValue | 8/problem2.py:114 | the decimal form reads back as the number |
| Day08Tree.LeadingZero | 8/problem2.py:114 | a leading zero does not change the value |
| Day08Tree.LabelRoundTrip | 8/problem2.py:114 | the name "S" followed by the two-digit-padded number reads back as the number |
| Day08Tree.Read | 8/problem2.py:91-129 | a successful parse reads both header tokens, stays inside the tokens and uses at least one name |
| Day08Tree.ReadChildren | 8/problem2.py:99-125 | parsing k children yields k nodes |
| Day08Tree.Tree.constructor | 8/problem2.py:82-132 | the tokens are set and the cursor and name counter start at 0 |
| Day08Tree.Tree.GetNext | 8/problem2.py:107-110 | `get_next` returns the token at the cursor and advances it, and raises (None, cursor unchanged) at the end of the tokens |
| Day08Tree.Tree.GetName | 8/problem2.py:113-116 | `get_name` returns the label of the counter and increments it |
| Day08Tree.Tree.ParseChild | 8/problem2.py:119-129 | `parse_child` succeeds exactly when the reference reading does, and leaves the cursor and counter where it says |
| Day08Tree.Tree.ParseChildren | 8/problem2.py:124-125 | the children loop reads the specified children |
| Day08Tree.Tree.ReadMetadata | 8/problem2.py:126-128 | reading n metadata tokens succeeds exactly when n tokens remain, and returns them |
| Day08Tree.Tree.Parse | 8/problem2.py:91-104 | `parse` does what `parse_child` does |
| Day08Tree.PrependNothing | 8/problem2.py:99-100 | pushing no children changes nothing |
| Day08Tree.PrependTwice | 8/problem2.py:99-100 | pushing children one by one is pushing them all |
| Day08Tree.Strip | 8/problem2.py:46-52 | dropping the names keeps the number of children and the metadata |
| Day08Tree.StripAll | 8/problem2.py:46-52 | stripping a list keeps its length |
| Day08Tree.StripAllIndex | 8/problem2.py:46-52 | stripping a list strips each element |
| Day08Tree.StripAllAppend | 8/problem2.py:46-52 | stripping distributes over concatenation |
| Day08Tree.ReadIsDecode | 8/problem2.py:91-129 | the script's parse succeeds exactly when the Rust parse does, and gives the same tree and cursor once names are dropped |
| Day08Tree.ReadChildrenIsDecodeChildren | 8/problem2.py:124-125 | the same for runs of children |
| Day08Tree.Labels | 8/problem2.py:113-116 | the labels handed out between two counter values, in order |
| Day08Tree.LabelsJoin | 8/problem2.py:113-116 | consecutive label ranges join |
| Day08Tree.ReadNames | 8/problem2.py:91-129 | the tree's names in preorder are exactly the labels from the starting counter to the final one |
| Day08Tree.ReadChildrenNames | 8/problem2.py:124-125 | the same for a run of children |
| Day08Tree.NamesDistinct | 8/problem2.py:113-116 | no two nodes of a parsed tree share a name |
| Day08Tree.ValueIsRustValue | 8/problem2.py:68-79 | `value()` agrees with the Rust solver's value on the stripped tree |
| Day08Tree.EntriesAreReferences | 8/problem2.py:71-78 | the loop over metadata, with `0 < m < len(children) + 1`, adds what the Rust index test adds |
| Day08Tree.TotalIsSumMetadata | 8/problem2.py:62-66 | the metadata total of a node is the Rust `sum_metadata` |
| Day08Tree.TotalOfIsSumChildren | 8/problem2.py:64-65 | the children's totals agree with the Rust sums |
| Day08Tree.SumChildrenAppend | rust/src/day08.rs:31-33 | adding a child adds its sum |
| Day08Tree.MetadataCount.constructor | 8/problem2.py:47 | `metadata_count` starts at 0 |
| Day08Tree.MetadataCount.CountMetadata | 8/problem2.py:62-66 | `count_metadata` adds the tree's metadata total to the class counter and returns the new counter |
| Day08Tree.Run | 8/problem2.py:132-135 | the script prints the root's value, or raises when the tokens do not parse |
| Day08Tree.AnswerIsPart2 | 8/problem2.py:132-135 | the script's answer is the Rust part 2 |
| Day09.TurnBack | rust/src/day09.rs:24-25 | moving the back marble to the front keeps the length and the marbles |
| Day09.TurnFront | rust/src/day09.rs:36-37 | moving the front marble to the back keeps the length and the marbles |
| Day09.RotateBack | rust/src/day09.rs:23-26 | k back-to-front moves keep the length |
| Day09.RotateFront | rust/src/day09.rs:35-38 | k front-to-back moves keep the length |
| Day09.RotateFrontTwice | rust/src/day09.rs:35-38 | two front-to-back moves are two single moves |
| Day09.FrontCutStep | rust/src/day09.rs:36-37 | one more front-to-back move shifts the cut point by one |
| Day09.RotateFrontIsCut | rust/src/day09.rs:35-38 | k front-to-back moves, k at most the length, cut the circle after its k-th marble |
| Day09.BackCutStep | rust/src/day09.rs:24-25 | one more back-to-front move shifts the cut point back by one |
| Day09.RotateBackIsCut | rust/src/day09.rs:23-26 | k back-to-front moves bring the last k marbles to the front in order |
| Day09.FullTurn | rust/src/day09.rs:23-38 | rotating by the circle's length either way gives the circle back |
| Day09.RotateFrontKeepsMarbles | rust/src/day09.rs:35-38 | rotating never gains or loses a marble |
| Day09.RotateBackKeepsMarbles | rust/src/day09.rs:23-26 | rotating never gains or loses a marble |
| Day09.Scorer | rust/src/day09.rs:19 | `(marble - 1) % players` is a valid player index |
| Day09.Score | rust/src/day09.rs:17-32 | a multiple of 23 removes one marble and keeps one score per player |
| Day09.Insert | rust/src/day09.rs:34-39 | an ordinary marble adds one marble and leaves the scores alone |
| Day09.Place | rust/src/day09.rs:16-41 | one turn shrinks the circle by one on a multiple of 23 and grows it by one otherwise |
| Day09.DivStep | rust/src/day09.rs:16-17 | the count of multiples of 23 up to m grows by one exactly at a multiple |
| Day09.Play | rust/src/day09.rs:12-41 | after m marbles the circle holds `1 + m - 2 * (m / 23)` marbles and there is one score per player |
| Day09.PlayStep | rust/src/day09.rs:16-41 | the game up to m is the game up to m - 1 followed by placing marble m |
| Day09.MaxOf | rust/src/day09.rs:43 | the maximum score is at least every score and is one of them |
| Day09.TurnBackBy | rust/src/day09.rs:23-26 | the pop_back/push_front loop rotates as the specification says |
| Day09.TurnFrontBy | rust/src/day09.rs:35-38 | the pop_front/push_back loop rotates as the specification says |
| Day09.ScoreTwice | rust/src/day09.rs:20-30 | crediting the marble and then the removed marble to one player gives the turn's scores |
| Day09.PlaceMarble | rust/src/day09.rs:17-40 | the loop body places one marble exactly as the turn function does |
| Day09.PlayGame | rust/src/day09.rs:11-44 | with no players the game panics (None); otherwise the result is the highest score after the last marble |
| Day09.PlacedIsCurrent | rust/src/day09.rs:39 | after an ordinary marble it is the current marble, at the front |
| Day09.PlaceRaisesScores | rust/src/day09.rs:20-30 | no turn lowers a score |
| Day09.ScoresNeverDrop | rust/src/day09.rs:16-41 | a player's score never decreases as the game goes on |
| Day09.OneMarbleDistinct | rust/src/day09.rs:14 | the starting circle has no repeated marble |
| Day09.DropDistinct | rust/src/day09.rs:29 | removing the front marble keeps the marbles distinct |
| Day09.PushDistinct | rust/src/day09.rs:39 | pushing a marble higher than all others keeps them distinct |
| Day09.SameMarbles | rust/src/day09.rs:23-38 | a rotation has the same distinct marbles |
| Day09.PlaceDistinct | rust/src/day09.rs:16-41 | one turn keeps the circle free of repeats, every marble at most the one just played |
| Day09.CircleDistinct | rust/src/day09.rs:12-41 | after any number of marbles the circle holds each marble at most once, none above the last one played |
| Day09.TotalAppend | rust/src/day09.rs:43 | the total of two joined lists is the sum of totals |
| Day09.TotalUpdate | rust/src/day09.rs:20-30 | changing one score changes the total by the difference |
| Day09.TurnFrontKeepsTotal | rust/src/day09.rs:36-37 | moving a marble keeps the circle's total |
| Day09.TurnBackKeepsTotal | rust/src/day09.rs:24-25 | moving a marble keeps the circle's total |
| Day09.RotateFrontKeepsTotal | rust/src/day09.rs:35-38 | rotating keeps the circle's total |
| Day09.RotateBackKeepsTotal | rust/src/day09.rs:23-26 | rotating keeps the circle's total |
| Day09.PlaceKeepsTotal | rust/src/day09.rs:16-41 | each turn adds exactly the new marble to the sum of the circle and the scores |
| Day09.MarblesConserved | rust/src/day09.rs:12-41 | after m marbles, circle and scores together hold 0 + 1 + ... + m: every marble is either in the circle or in exactly one score |
| Day09.Triangle | rust/src/day09.rs:16 | the triangular number step |
| Day09.ZeroScores | rust/src/day09.rs:12 | `vec![0; players]` totals 0 |
| Day09.Part2 | rust/src/day09.rs:51-54 | part 2 plays the game to 100 times the last marble |
| Day09Circle.Node.constructor | 9/problem1.py:39-42 | a node holds its name and its two links |
| Day09Circle.NamesTurnFront | 9/problem1.py:89-90 | stepping clockwise over the ring is a front-to-back rotation of the names |
| Day09Circle.NamesTurnBack | 9/problem1.py:86-87 | stepping counter-clockwise is a back-to-front rotation of the names |
| Day09Circle.NamesPush | 9/problem1.py:96-100 | a node put in front adds its name in front |
| Day09Circle.NamesDrop | 9/problem1.py:108-110 | dropping the front node drops its name |
| Day09Circle.Circle.LinksAgree | 9/problem1.py:57-112 | in a well-formed circle every node's left neighbour's right link points back to it, and the other way round |
| Day09Circle.Circle.constructor | 9/problem1.py:59-65 | a new circle is the one node 0 linked to itself, size 1 |
| Day09Circle.Circle.StepCounterClockwise | 9/problem1.py:86-87 | `current` moves to its left neighbour: the names turn back by one, nothing else changes |
| Day09Circle.Circle.StepClockwise | 9/problem1.py:89-90 | `current` moves to its right neighbour: the names turn forward by one |
| Day09Circle.Circle.Insert | 9/problem1.py:92-102 | `insert` steps twice clockwise and links a fresh node in before `current`, which becomes current: the names are the new name followed by the old names rotated two to the front |
| Day09Circle.Circle.Splice | 9/problem1.py:96-102 | linking in one fresh node before `current` puts its name in front and grows the size by one |
| Day09Circle.Circle.Remove | 9/problem1.py:104-112 | `remove` steps seven back, returns that marble and unlinks it: the score and the names are those of the back rotation by 7 |
| Day09Circle.Circle.Unlink | 9/problem1.py:108-111 | unlinking `current` removes the front name and makes the next node current |
| Day09Circle.LastRemoved | 9/problem1.py:118-130 | `last_remove_score` is -1 before any removal and a marble after one |
| Day09Circle.LastRemovedStep | 9/problem1.py:127-131 | a multiple of 23 sets it to the marble the turn removes; other turns keep it |
| Day09Circle.RoomToRemove | 9/problem1.py:124-129 | the circle has at least two marbles whenever a removal happens |
| Day09Circle.NextElf | 9/problem1.py:126 | `elf = (elf + 1) % N` is the player the Rust solver credits for the marble |
| Day09Circle.ScoreTurn | 9/problem1.py:127-131 | a multiple-of-23 turn changes the linked circle and the scores exactly as the Rust turn does, and returns the removed marble |
| Day09Circle.ScoreParts | rust/src/day09.rs:17-32 | the Rust scoring turn splits into its two credits and its removal |
| Day09Circle.PlayTurn | 9/problem1.py:124-135 | one turn of the while loop keeps the linked circle, the scores, `elf` and `last_remove_score` in step with the Rust game |
| Day09Circle.Start | 9/problem1.py:118-123 | the start state is in step with the Rust game before any marble |
| Day09Circle.RunGame | 9/problem1.py:115-138 | the script prints the last removed marble and the highest score, the latter equal to the Rust `play_game` |
| Day10.StepBackUndoesStep | rust/src/day10.rs:13-21 | `step_back` undoes `step` and the other way round, and neither changes the velocity |
| Day10.StepEach | rust/src/day10.rs:79-81 | stepping every point keeps their number |
| Day10.StepBackEach | rust/src/day10.rs:87-89 | stepping every point back keeps their number |
| Day10.StepBackEachUndoes | rust/src/day10.rs:79-90 | stepping all points back after stepping them gives the original points |
| Day10.Advance | rust/src/day10.rs:78-94 | t seconds of stepping keep the number of points |
| Day10.AdvanceStep | rust/src/day10.rs:78-94 | t seconds are t - 1 seconds followed by one step of every point |
| Day10.StepAll | rust/src/day10.rs:79-81 | the in-place loop over the point array steps every point |
| Day10.StepBackAll | rust/src/day10.rs:87-89 | the in-place loop steps every point back |
| Day10.MinOf | rust/src/day10.rs:42-44 | the minimum is one of the values and at most all of them |
| Day10.MaxOf | rust/src/day10.rs:43-45 | the maximum is one of the values and at least all of them |
| Day10.Xs | rust/src/day10.rs:42-43 | one x per point |
| Day10.Ys | rust/src/day10.rs:44-45 | one y per point |
| Day10.BoundingBox | rust/src/day10.rs:41-47 | the box's minima are at most its maxima |
| Day10.BoundingBoxFits | rust/src/day10.rs:41-47 | the box encloses every point and each side touches a point |
| Day10.BoundingBoxUnique | rust/src/day10.rs:41-47 | the bounding box is the only box that encloses the points with every side touching one |
| Day10.AreaZeroIffLine | rust/src/day10.rs:49-52 | the area is never negative, and is zero exactly when all points share an x or all share a y |
| Day10.PointSetHolds | rust/src/day10.rs:56 | a pair is in `point_set` exactly when some point is there |
| Day10.Cells | rust/src/day10.rs:60-66 | k cells give k characters |
| Day10.CellsStep | rust/src/day10.rs:60-66 | one more column appends one cell |
| Day10.Line | rust/src/day10.rs:60-67 | each row has one character per column plus the newline |
| Day10.LinesOf | rust/src/day10.rs:59-68 | one line per row from `min_y` on, each the row at that y |
| Day10.ConcatStep | rust/src/day10.rs:58-68 | joining one more line appends it |
| Day10.RenderLines | rust/src/day10.rs:54-70 | the picture is its lines joined, one per y of the box, each as wide as the box plus one and ending in a newline |
| Day10.BoxCell | rust/src/day10.rs:59-66 | the character at row r and column c is the cell at `(min_x + c, min_y + r)` |
| Day10.RenderCells | rust/src/day10.rs:54-70 | every cell of the picture is '#' or '.', and '#' exactly when some point sits there |
| Day10.DrawRow | rust/src/day10.rs:60-67 | the inner loop draws one row |
| Day10.DrawBox | rust/src/day10.rs:58-69 | the two loops draw the whole box |
| Day10.DisplayPoints | rust/src/day10.rs:54-70 | `display_points` returns the rendered picture |
| Day10.FirstGrowth | rust/src/day10.rs:78-94 | the result is the first s from t on at which the area grows, every earlier second shrinks or holds, and no result within the limit means it never grew |
| Day10.Solve | rust/src/day10.rs:72-97 | when the area first grows after s seconds, the result is the picture after s seconds and s; within the limit otherwise nothing |
| Day10.Parts | rust/src/day10.rs:99-112 | the message and the seconds come from the same run: both present or both absent, the seconds being the first growth and the message the picture of the points after that many seconds |
| Day10Script.MinInt | python/10/problem1.py:57 | Python's `min` of two numbers is at most both and is one of them |
| Day10Script.MaxInt | python/10/problem1.py:60 | `max` of two numbers is at least both and is one of them |
| Day10Script.Position.constructor | python/10/problem1.py:48-50 | a position holds its coordinates |
| Day10Script.Position.Move | python/10/problem1.py:52-54 | `move` adds the velocity to the coordinates in place |
| Day10Script.Position.Min | python/10/problem1.py:56-57 | `min` returns a new position of the coordinate-wise minima |
| Day10Script.Position.Max | python/10/problem1.py:59-60 | `max` returns a new position of the coordinate-wise maxima |
| Day10Script.Coords | python/10/problem1.py:82 | the coordinates of the positions, in order |
| Day10Script.Moved | python/10/problem1.py:157-159 | one tick keeps the number of positions |
| Day10Script.After | python/10/problem1.py:157-159 | t ticks keep the number of positions |
| Day10Script.AfterStep | python/10/problem1.py:157-159 | t ticks are t - 1 ticks then one more |
| Day10Script.Tick | python/10/problem1.py:157-159 | `tick` moves each position object by its own velocity |
| Day10Script.XsOf | python/10/problem1.py:135-146 | one x per position |
| Day10Script.YsOf | python/10/problem1.py:135-146 | one y per position |
| Day10Script.FoldMinBounds | python/10/problem1.py:135-139 | folding `min` from the sentinel gives at most the sentinel and every value, and is one of them |
| Day10Script.FoldMaxBounds | python/10/problem1.py:142-146 | folding `max` from the sentinel gives at least the sentinel and every value, and is one of them |
| Day10Script.FoldMinStep | python/10/problem1.py:137-138 | one more position folds one more `min` |
| Day10Script.FoldMaxStep | python/10/problem1.py:144-145 | one more position folds one more `max` |
| Day10Script.FoldMinIsMin | python/10/problem1.py:135-139 | with every value at most 60000, `find_p_min` gives the true minimum |
| Day10Script.FoldMaxIsMax | python/10/problem1.py:142-146 | with every value at least -60000, `find_p_max` gives the true maximum |
| Day10Script.FindPMin | python/10/problem1.py:135-139 | the loop folds `min` over the positions from (60000, 60000) |
| Day10Script.FindPMax | python/10/problem1.py:142-146 | the loop folds `max` over the positions from (-60000, -60000) |
| Day10Script.AreaSize | python/10/problem1.py:149-154 | `area_size` is the product of the folded box's width and height |
| Day10Script.ToPoints | python/10/problem1.py:82-95 | pairing positions with velocities keeps their number |
| Day10Script.BoxAgrees | python/10/problem1.py:149-154 | within the sentinels, the folded box has the same width and height as the Rust bounding box |
| Day10Script.AreaAgrees | python/10/problem1.py:149-154 | within the sentinels, the script's area is the Rust area |
| Day10Script.AfterAgrees | python/10/problem1.py:157-159 | t ticks of the script are t seconds of the Rust stepping |
| Day10Script.FirstSmall | python/10/problem1.py:165-170 | the tick count the while loop stops at lies within the limit |
| Day10Script.FirstSmallIsFirst | python/10/problem1.py:165-170 | it is the first tick count whose area is at most 300 * 300, and without one every count up to the limit has a larger area |
| Day10Script.FirstSmallStep | python/10/problem1.py:165-170 | a large area means one more tick |
| Day10Script.FirstSmallHere | python/10/problem1.py:165 | a small area stops the loop |
| Day10Script.FirstSmallNone | python/10/problem1.py:165 | a large area at the limit means no stop within the limit |
| Day10Script.OutcomeSome | python/10/problem1.py:165-174 | stopping after t ticks gives t + 25 as the printed count |
| Day10Script.OutcomeIsFirstSmall | python/10/problem1.py:165-174 | a printed count s + 25 means the area after s ticks is small and every earlier one large |
| Day10Script.OutcomeNone | python/10/problem1.py:165-170 | no stop within the limit means every area up to it is large |
| Day10Script.TickWhileLarge | python/10/problem1.py:163-170 | the while loop stops at the first small area and leaves the positions moved that many ticks |
| Day10Script.TickOnce | python/10/problem1.py:167-170 | one iteration moves every position once and recomputes the area |
| Day10Script.TickTimes | python/10/problem1.py:172-174 | n ticks move every position n times |
| Day10Script.Align | python/10/problem1.py:162-174 | the script's tick count is the first small area plus 25, and the positions are moved that many ticks |
| Day11.QuotRem | rust/src/day11.rs:8 | Rust's truncating `/` and `%` split a number into quotient and remainder, the remainder taking the dividend's sign |
| Day11.PowerLevel | rust/src/day11.rs:3-10 | with Rust's truncating division the power level is between -14 and 4 |
| Day11.PowerLevelIsHundredsDigit | rust/src/day11.rs:3-10 | for a non-negative product the level is its hundreds digit minus 5, so between -5 and 4 |
| Day11.HundredsDigit | rust/src/day11.rs:8 | `(n / 100) % 10` is the hundreds digit of a non-negative n |
| Day11.GridPowerInRange | rust/src/day11.rs:3-10 | on the grid, with a non-negative serial, every level is between -5 and 4 |
| Day11.PowerLevelSamples | rust/src/day11.rs:101-107 | the four sample cells have levels 4, -5, 0 and 4 |
| Day11.Levels | rust/src/day11.rs:18 | the level grid of a serial gives each cell's power level |
| Day11.LevelsBounded | rust/src/day11.rs:3-10 | every cell of that grid is between -14 and 4 |
| Day11.BlockEmpty | rust/src/day11.rs:30-40 | an empty rectangle sums to 0 |
| Day11.CornerEdges | rust/src/day11.rs:14 | row 0 and column 0 of the table are 0 |
| Day11.CornerStep | rust/src/day11.rs:19-22 | each table entry is the cell plus the entries above and to the left minus the one above-left |
| Day11.SpanSplit | rust/src/day11.rs:30-40 | a row segment's sum splits at any point |
| Day11.BlockSplitX | rust/src/day11.rs:30-40 | a rectangle's sum splits at any column |
| Day11.BlockSplitY | rust/src/day11.rs:30-40 | a rectangle's sum splits at any row |
| Day11.RectangleFromCorners | rust/src/day11.rs:30-40 | any rectangle's sum is four corner sums combined, which is what `square_sum` computes |
| Day11.SpanAbove | rust/src/day11.rs:3-10 | a row segment of n cells sums to at least -14 n |
| Day11.BlockAbove | rust/src/day11.rs:13-27 | a block at most 300 wide sums to at least -4200 per row |
| Day11.SquareAboveMin | rust/src/day11.rs:46-68 | every square's power is above `i32::MIN`, so the first square always replaces the start value |
| Day11.FillCell | rust/src/day11.rs:18-22 | filling one cell extends the filled part of the table by that cell |
| Day11.BuildSat | rust/src/day11.rs:13-27 | `build_sat` fills the 301 by 301 table so that each entry is the sum of the levels above and to the left of it |
| Day11.SquareSumIsSquare | rust/src/day11.rs:30-40 | `square_sum` on that table is the sum of the levels in the square |
| Day11.Examine | rust/src/day11.rs:76-82 | looking at one more square keeps the best so far: at least every earlier square and strictly more than every square before it |
| Day11.LeadsTake | rust/src/day11.rs:77-82 | a strictly larger power becomes the new best |
| Day11.LeadsKeep | rust/src/day11.rs:77 | a power that is not larger leaves the best alone |
| Day11.RowEnd | rust/src/day11.rs:75 | the end of a row is the start of the next one |
| Day11.SizeEnd | rust/src/day11.rs:74 | the end of a size is the start of the next one |
| Day11.ScanSize | rust/src/day11.rs:74-84 | the two inner loops scan every square of one size |
| Day11.LeadsToWinner | rust/src/day11.rs:73-85 | after the last size, the best so far is the winner |
| Day11.BestOfSizes | rust/src/day11.rs:68-85 | the loops over sizes lo to hi return the square of greatest power, the first such in size, row, column order since only a strictly larger power replaces it |
| Day11.Part1 | rust/src/day11.rs:42-62 | part 1 is the first 3 by 3 square of greatest power |
| Day11.Part2 | rust/src/day11.rs:64-88 | part 2 is the first square of any size of greatest power |
| Day11Script.PowerLevel | python/11/problem1.py:40-56 | with Python's floored `%` and `//` the level is between -5 and 4 |
| Day11Script.AgreesWithRust | python/11/problem1.py:40-56 | for a non-negative product the script's level is the Rust level |
| Day11Script.PowerLevelSamples | python/11/problem1.py:27 | the four sample cells have levels 4, -5, 0 and 4 |
| Day11Script.BuildGrid | python/11/problem1.py:105-113 | `grid[j][i]` is the level of cell (i + 1, j + 1) for all 300 by 300 cells |
| Day11Script.Slice | python/11/problem1.py:86 | Python's slice `row[a:b]` is clipped to the row, and is `row[a..b]` inside it |
| Day11Script.Sum3x3 | python/11/problem1.py:82-87 | `sum_3x3` adds the three row slices of the window |
| Day11Script.SumOfThree | python/11/problem1.py:86 | a three-element slice sums its elements |
| Day11Script.RowsOfThree | python/11/problem1.py:84-86 | the window is the sum of three row slices |
| Day11Script.BlockOfThree | python/11/problem1.py:84-86 | a three-row block is three row segments |
| Day11Script.SpanOfThree | python/11/problem1.py:86 | a three-cell segment is three cells |
| Day11Script.CellIsLevel | python/11/problem1.py:107-113 | the grid cell is the Rust level of the cell |
| Day11Script.SliceIsSpan | python/11/problem1.py:86 | a slice of the grid sums as the Rust row segment |
| Day11Script.ChargeNonNegative | python/11/problem1.py:40-48 | on the grid with a non-negative serial the product is non-negative |
| Day11Script.WindowIsSquare | python/11/problem1.py:82-87 | `sum_3x3` is the Rust 3 by 3 square sum |
| Day11Script.Consider | python/11/problem1.py:119-121 | one more window keeps `ans` the best of the windows so far, first one winning ties |
| Day11Script.KeptNextRow | python/11/problem1.py:115-118 | the end of a row is the start of the next |
| Day11Script.KeptAnswer | python/11/problem1.py:115-121 | after the last row `ans` is the answer |
| Day11Script.Scan | python/11/problem1.py:115-121 | the scan returns the first window of greatest sum, or the start value when every window sums to -10 or less |
| Day11Script.Run | python/11/problem1.py:103-122 | the script's answer is the answer over its grid |
| Day11Script.GridUnique | python/11/problem1.py:105-113 | there is one grid for a serial |
| Day11Script.AnswerIsPart1 | python/11/problem1.py:115-122 | when the script finds a window, it is the Rust part 1 winner |
| Day12.ParsePlants | rust/src/day12.rs:15-20 | the initial plants are exactly the indices of '#' in the state string |
| Day12.FindArrow | rust/src/day12.rs:30 | `split_once(" => ")` finds the first occurrence of the arrow from a position, and finding none means there is none |
| Day12.PatternOf | rust/src/day12.rs:32-35 | a rule's array has five pots: the pattern's characters first, '.' for the rest |
| Day12.ParseRules | rust/src/day12.rs:25-38 | the rule set holds exactly the patterns of non-blank rule lines whose result starts with '#' |
| Day12.ParseInput | rust/src/day12.rs:6-41 | the plants come from the first line after "initial state: ", trimmed, and the rules from the lines after the skipped second line |
| Day12.Window | rust/src/day12.rs:55-60 | the five-pot pattern around pot i has '#' at offset k exactly when pot i + k - 2 holds a plant |
| Day12.NonEmpty | rust/src/day12.rs:44-49 | a non-empty set has a member |
| Day12.MinMaxExist | rust/src/day12.rs:48-49 | a non-empty set of pots has a least and a greatest pot |
| Day12.Min | rust/src/day12.rs:48 | `min` is a pot of the set no greater than any other |
| Day12.Max | rust/src/day12.rs:49 | `max` is a pot of the set no less than any other |
| Day12.NextWithin | rust/src/day12.rs:43-68 | no plants stay no plants, and new plants lie within two pots of the old range |
| Day12.NextInRange | rust/src/day12.rs:54-65 | inside the scanned range a pot holds a plant next exactly when its pattern is a rule |
| Day12.NextIsLocalRule | rust/src/day12.rs:43-68 | when the empty pattern makes no plant, the limited scan is the rule applied at every pot of the infinite row |
| Day12.Extremes | rust/src/day12.rs:48-49 | the loop finds the least and the greatest pot |
| Day12.NextGeneration | rust/src/day12.rs:43-68 | `next_generation` returns the next generation as specified |
| Day12.Pick | rust/src/day12.rs:71 | a non-empty set yields one of its members |
| Day12.SetSumRemove | rust/src/day12.rs:71 | the sum over a set is any member plus the sum over the rest |
| Day12.SumOfPlants | rust/src/day12.rs:70-72 | `sum_of_plants` is the sum of the pot numbers |
| Day12.SetSumAdd | rust/src/day12.rs:71 | adding a new pot adds its number |
| Day12.GenStep | rust/src/day12.rs:77-79 | generation n + 1 is the next generation of generation n |
| Day12.Part1 | rust/src/day12.rs:74-82 | part 1 is the pot-number sum after 20 generations |
| Day12.FirstStable | rust/src/day12.rs:94-115 | the first generation whose run of equal changes reaches the threshold lies after the start and at most the target |
| Day12.FirstStableIsFirst | rust/src/day12.rs:100-112 | that generation's run is long enough and every earlier one's is too short; without one, every run up to the target is too short |
| Day12.FirstStableStep | rust/src/day12.rs:94-115 | a short run moves the search on by one generation |
| Day12.Generation | rust/src/day12.rs:95-114 | one iteration computes the next generation, its sum, its change and the run of equal changes |
| Day12.Part2 | rust/src/day12.rs:84-118 | part 2 is the sum at the first generation whose change has been the same for 200 generations plus that change times the remaining generations, or the plain sum at the target when no such generation comes |
| Day12.LinearGrowth | rust/src/day12.rs:109-111 | when the change stays d from g to the target, the sum at the target is the sum at g plus d per generation |
| Day12.ExtrapolationExact | rust/src/day12.rs:109-111 | when the change really stays the same up to the target, the fast-forward gives the exact sum |
| Day12Script.Dots | 12/problem1.py:57-75 | a string of n dots |
| Day12Script.Initial | 12/problem1.py:56-59 | the initial row puts the initial state at index N, dots elsewhere, and is 2N long unless the state is longer than N |
| Day12Script.LastResult | 12/problem1.py:65-70 | a key's dictionary entry is the first character of the result of the last rule with that pattern |
| Day12Script.BuildPatterns | 12/problem1.py:64-70 | the dictionary has a key for each rule pattern, holding the last rule's result character |
| Day12Script.LastResultStep | 12/problem1.py:65-70 | a later rule with the same pattern overwrites the entry |
| Day12Script.Key | 12/problem1.py:77 | the key at i is the five pots from i |
| Day12Script.NextState | 12/problem1.py:75-86 | the next row is 2N long |
| Day12Script.Generation | 12/problem1.py:75-86 | the inner loop writes the next row as specified |
| Day12Script.EdgesStayEmpty | 12/problem1.py:75-82 | the first two pots and the last three are never written, so stay empty |
| Day12Script.KeyIsWindow | 12/problem1.py:77 | the key at i - 2 is the Rust five-pot pattern around pot i - N |
| Day12Script.GenerationAgrees | 12/problem1.py:75-86 | when no plant is near the edges, the entries are plain and the empty pattern makes no plant, one script generation is one Rust generation |
| Day12Script.Answer | 12/problem1.py:89-93 | the final loop adds `i - N` for each '#' |
| Day12Script.ScoreIsSetSum | 12/problem1.py:89-93 | the sum over a prefix of the row is the Rust sum over the plants there |
| Day12Script.AnswerIsSumOfPlants | 12/problem1.py:89-93 | the printed sum is the Rust `sum_of_plants` of the row's plants |
| Day12Script.Run | 12/problem1.py:56-93 | the script prints the pot-number sum of the row after 20 generations from the initial row under the dictionary built from the rules |
| Day13.TurnsInverse | rust/src/day13.rs:13-29 | turning right undoes turning left and the other way round |
| Day13.FourTurns | rust/src/day13.rs:13-29 | four left turns or four right turns come back to the start, and fewer than four left turns never do |
| Day13.ListedAppend | rust/src/day13.rs:61-67 | pushing a cart keeps the carts already listed and lists the new one |
| Day13.Parse | rust/src/day13.rs:41-73 | the grid keeps its shape with each cart symbol replaced by the track under it, and the carts are exactly the cart symbols, in row-major order, facing their symbol's way, turn state 0 and alive |
| Day13.Ahead | rust/src/day13.rs:76-81 | moving one square keeps direction, turn state and liveness |
| Day13.BendsAreInvolutions | rust/src/day13.rs:85-100 | each bend undoes itself and always changes the direction |
| Day13.Cross | rust/src/day13.rs:101-108 | an intersection keeps the position and liveness and the turn state stays below 3 |
| Day13.ThreeCrossings | rust/src/day13.rs:101-108 | three intersections bring direction and turn state back: left, straight, right |
| Day13.StepCart | rust/src/day13.rs:75-112 | a step moves the cart exactly one square, keeps its liveness and keeps its turn state below 3 |
| Day13.StepCartFollowsTrack | rust/src/day13.rs:83-111 | after moving, straight track keeps the direction, '/' and '\\' bend it, and '+' applies the turn rule |
| Day13.StepCartPanics | rust/src/day13.rs:83-110 | a step fails exactly when the square ahead is off the grid or not a track character |
| Day13.Count | rust/src/day13.rs:148 | counting carts never exceeds their number |
| Day13.CountUpdate | rust/src/day13.rs:138-139 | replacing one cart changes the count by its own change |
| Day13.CountAppend | rust/src/day13.rs:148 | counts add over concatenation |
| Day13.CountPositive | rust/src/day13.rs:148-150 | the count is positive exactly when some cart qualifies |
| Day13.Insert | rust/src/day13.rs:118-121 | inserting one cart adds exactly that cart |
| Day13.SortByPos | rust/src/day13.rs:118-121 | sorting keeps exactly the same carts |
| Day13.InsertSorted | rust/src/day13.rs:118-121 | inserting into a sorted list keeps it sorted by row, then column |
| Day13.SortByPosSorted | rust/src/day13.rs:118-121 | the sorted carts are in row, then column order |
| Day13.InsertCount | rust/src/day13.rs:118-121 | inserting adds one to the count exactly when the cart qualifies |
| Day13.SortCount | rust/src/day13.rs:118-121 | sorting keeps every count |
| Day13.TallyCrash | rust/src/day13.rs:138-139 | a crash kills two carts and marks the tally as crashed |
| Day13.SortKeeps | rust/src/day13.rs:118-121 | sorting keeps the simulation invariant |
| Day13.SortTurnStates | rust/src/day13.rs:118-121 | sorting keeps every turn state below 3 |
| Day13.FirstHit | rust/src/day13.rs:130-145 | the inner loop's hit is the first other running cart at cart i's square, and none means no such cart |
| Day13.FindCrash | rust/src/day13.rs:130-145 | the inner `for j` loop finds that first hit |
| Day13.MoveF | rust/src/day13.rs:128-145 | moving cart i fails exactly when its step fails; the number of carts stays; the first collision only changes when it was unset and a crash happens, and a crash always sets it |
| Day13.MoveOutcome | rust/src/day13.rs:128-145 | cart i crashes exactly when another running cart is on its new square; without a crash only cart i changes, and with one both carts stop and `first_collision` is the crash square if it was unset |
| Day13.MoveCart | rust/src/day13.rs:128-145 | the body for one cart computes that move, or panics when its step does |
| Day13.MoveKeeps | rust/src/day13.rs:128 | a move without a crash keeps the invariant and the number of running carts |
| Day13.CrashKeeps | rust/src/day13.rs:134-139 | a crash keeps the invariant and removes two running carts |
| Day13.MoveFKeeps | rust/src/day13.rs:128-145 | every move keeps the invariant and removes two running carts when it crashes, none otherwise |
| Day13.MovesKeep | rust/src/day13.rs:123-146 | the rest of a tick keeps the invariant, and stops early only in stop-on-first mode, with the collision set and two carts fewer |
| Day13.Tick | rust/src/day13.rs:118-146 | the sort and the loop over carts compute one tick as specified, or panic |
| Day13.TickKeeps | rust/src/day13.rs:118-146 | a whole tick keeps the invariant |
| Day13.Last | rust/src/day13.rs:148-150 | the last position exists exactly when a cart is running, and is the position of the first running cart |
| Day13.LastCart | rust/src/day13.rs:148-150 | the loop finds that position |
| Day13.CountAlive | rust/src/day13.rs:148-149 | the loop counts the running carts |
| Day13.Simulate | rust/src/day13.rs:114-154 | the loop of ticks returns what the tick-bounded simulation gives |
| Day13.SimFKeeps | rust/src/day13.rs:114-154 | a finished run in stop mode reports a collision with two carts gone, and otherwise reports at most one running cart, at the reported position |
| Day13.MovesKeepFirst | rust/src/day13.rs:135-137 | once set, the first collision never changes within a tick |
| Day13.SimFKeepsFirst | rust/src/day13.rs:135-137 | once set, the first collision never changes for the rest of the run |
| Day13.MovesAgree | rust/src/day13.rs:140-143 | the two modes agree until the first crash, and then report the same first collision |
| Day13.FirstCrashAgrees | rust/src/day13.rs:114-154 | when part 1 finds a crash and part 2's run finishes, part 2 reports the same first collision |
| Day13.QuietTickAgrees | rust/src/day13.rs:118-153 | after a tick without a crash both modes carry on from the same carts |
| Day13.CrashTickAgrees | rust/src/day13.rs:135-143 | a tick with a crash gives part 1 its answer and part 2 the same first collision |
| Day13.CountAll | rust/src/day13.rs:66 | when all carts qualify, the count is the number of carts |
| Day13.FirstCrashSite | rust/src/day13.rs:156-161 | the reported site holds at least two stopped carts and exactly two carts have stopped |
| Day13.LastStandingCart | rust/src/day13.rs:163-168 | when part 2 reports a cart, exactly one cart is running there and the number of carts was odd |
| Day13.Part1 | rust/src/day13.rs:156-161 | part 1 parses the grid and reports the first collision of the stop-on-first run |
| Day13.Part2 | rust/src/day13.rs:163-168 | part 2 parses the grid and reports the last cart of the full run |
| Day13.LastOfOdd | rust/src/day13.rs:148-152 | carts stop in pairs, so one running cart means an odd number at the start |
| Day14.Start | rust/src/day14.rs:6-8 | the board starts as [3, 7] with the elves on 0 and 1 |
| Day14.StepAppends | rust/src/day14.rs:9-20 | a round appends the digits of the two current recipes' sum, one or two of them, and keeps the board well formed |
| Day14.RoundsValid | rust/src/day14.rs:9-20 | every round keeps the board well formed |
| Day14.RoundsLength | rust/src/day14.rs:9-20 | after k rounds there are between k + 2 and 2k + 2 recipes |
| Day14.RoundKeeps | rust/src/day14.rs:9-20 | a round never changes an existing recipe |
| Day14.RoundsExtend | rust/src/day14.rs:9-20 | later rounds only append |
| Day14.BoardIsRecipes | rust/src/day14.rs:9-20 | every board is a prefix of one infinite recipe list |
| Day14.RecipeIsDigit | rust/src/day14.rs:11-15 | every recipe is a digit |
| Day14.FirstRecipes | rust/src/day14.rs:9-20 | the list starts 3, 7, 1, 0 |
| Day14.Round | rust/src/day14.rs:10-19 | the loop body performs one round |
| Day14.MakeRecipes | rust/src/day14.rs:22-28 | at least the target number of recipes, at most one more, all from the recipe list |
| Day14.Part1 | rust/src/day14.rs:22-31 | the ten recipes after the first n, as digits |
| Day14.EndsAtOccurs | rust/src/day14.rs:40-55 | the pattern ends at position e of a board exactly when it occurs at e minus its length |
| Day14.CleanAfterAppend | rust/src/day14.rs:40-55 | appending recipes keeps earlier end positions free of the pattern |
| Day14.CleanLastTwo | rust/src/day14.rs:43-53 | checking the last two end positions covers them |
| Day14.CleanJoin | rust/src/day14.rs:43-53 | free ranges join |
| Day14.CleanNoOccurrence | rust/src/day14.rs:43-53 | a free range of end positions means no occurrence ends there |
| Day14.FirstRound | rust/src/day14.rs:9-20 | the first round yields 3, 7, 1, 0 |
| Day14.Part2 | rust/src/day14.rs:33-56 | as written, a reported index is an occurrence ending at index 3 or later, and no occurrence ending there starts more than one place before it; with none, no occurrence ends at 3 or later within the rounds |
| Day14.Advance | rust/src/day14.rs:40-42 | one round of the loop keeps the board on the recipe list and the checked ends free |
| Day14.CheckEnds | rust/src/day14.rs:43-53 | after a round, the pattern is looked for ending at the last recipe and then ending one before it; a hit is one of those two, and no end before it from index 3 on holds the pattern |
| Day14.Found | rust/src/day14.rs:43-53 | a match found by those checks is an occurrence with no earlier one the checks could have missed |
| Day14.OpeningOccurs | rust/src/day14.rs:33-56 | the pattern [3, 7] occurs at 0 but the window as written never reports it |
| Day14.FirstEnd | rust/src/day14.rs:43-53 | the first end position in a range where the pattern ends, with every earlier one free |
| Day14.Part2Corrected | rust/src/day14.rs:33-56 | corrected, the result is the first index at which the pattern occurs, and none means it occurs nowhere within the rounds |
| Day15Units.Enemy | rust/src/day15_v3.rs:85-88 | the enemy kind of a unit kind is never that kind |
| Day15Units.AdjacentIff | rust/src/day15_v3.rs:226-231 | two cells are adjacent exactly when they share a column and their rows differ by one, or share a row and their columns differ by one; equivalently their Manhattan distance is one; and adjacency is symmetric |
| Day15Units.KindOf | rust/src/day15_v3.rs:31-35 | a map cell holds an elf exactly when it is 'E' and a goblin exactly when it is 'G' |
| Day15Units.Cleared | rust/src/day15_v3.rs:36-48 | a unit's cell becomes open floor '.', every other cell stays as it was |
| Day15Units.Fresh | rust/src/day15_v3.rs:37-46 | a new unit stands where it was read, keeps its kind, has 200 hit points, and attacks with the elf power if an elf and with 3 if a goblin |
| Day15Units.ListedAppend | rust/src/day15_v3.rs:41-46 | pushing a unit keeps every unit already listed and lists the new one at its cell |
| Day15Units.Parse | rust/src/day15_v3.rs:25-53 | the grid keeps the map's shape with every unit cell cleared to floor and every other cell unchanged, and the units are exactly the 'E' and 'G' cells, fresh, in reading order |
| Day15Units.Clear | rust/src/day15_v3.rs:26-50 | the cleared map has the map's shape, each cell cleared |
| Day15Units.ClearIs | rust/src/day15_v3.rs:26-50 | any grid of the map's shape whose cells are the map's cells cleared is the cleared map |
| Day15Units.UnitsOfApart | rust/src/day15_v3.rs:29-50 | the units read from a map stand on pairwise different cells |
| Day15Units.KindCount | rust/src/day15_v3.rs:297 | the number of units of a kind is at most the number of units |
| Day15Units.LiveCount | rust/src/day15_v3.rs:307 | the number of live units of a kind is at most the number of units of that kind |
| Day15Units.AllLiveCount | rust/src/day15_v3.rs:297 | in a roster with no dead unit, counting the live units of a kind counts all units of that kind |
| Day15Units.HpSumLive | rust/src/day15_v3.rs:275-277 | when every unit is alive the hit-point sum is at least the number of units |
| Day15Units.Live | rust/src/day15_v3.rs:271 | the purged roster is no longer than the roster and holds live units only |
| Day15Units.LiveAll | rust/src/day15_v3.rs:271 | purging a roster with no dead unit leaves it as it is |
| Day15Units.LiveApart | rust/src/day15_v3.rs:271 | every unit that survives the purge was in the roster, and live units on pairwise different cells stay on different cells after it |
| Day15Units.LiveKeepsCount | rust/src/day15_v3.rs:271-307 | after the purge, the count of units of a kind equals the count of live units of that kind before it |
| Day15Units.EnemiesNear | rust/src/day15_v3.rs:244-253 | the adjacent enemies list holds exactly the indices of live units of the other kind next to the cell, each once, in increasing order |
| Day15Units.Weakest | rust/src/day15_v3.rs:257-263 | the chosen target is one of the candidates, and no candidate has a lower (hp, y, x) key |
| Day15Units.Attack | rust/src/day15_v3.rs:255-267 | an attack keeps every unit's cell, kind and power, and leaves dead units untouched |
| Day15Units.AttackNoEnemy | rust/src/day15_v3.rs:255 | with no live enemy next to the attacker, the attack changes nothing |
| Day15Units.AttackHitsWeakest | rust/src/day15_v3.rs:255-266 | once a live enemy is next to the attacker, the attack lowers by the attacker's power the hit points of an adjacent enemy with the least (hp, y, x), and of nobody else |
| Day15Units.Range | rust/src/day15_v3.rs:202 | the indices 0 to n-1 in order |
| Day15Units.InsertIndex | rust/src/day15_v3.rs:203-206 | inserting an index into a turn order makes it one longer and keeps every index a valid unit index |
| Day15Units.SortIndices | rust/src/day15_v3.rs:202-206 | sorting the first n indices gives n valid unit indices |
| Day15Units.TurnOrder | rust/src/day15_v3.rs:202-206 | the turn order has one entry per unit, each a valid unit index |
| Day15Units.InsertIndexMultiset | rust/src/day15_v3.rs:203-206 | insertion adds exactly the inserted index to the multiset of indices |
| Day15Units.SortIndicesMultiset | rust/src/day15_v3.rs:202-206 | sorting the first n indices is a permutation of 0 to n-1 |
| Day15Units.InsertIndexSorted | rust/src/day15_v3.rs:203-206 | inserting into an order sorted by reading order of position keeps it sorted |
| Day15Units.TurnOrderSorted | rust/src/day15_v3.rs:203-206 | the turn order lists the units in reading order of their positions |
| Day15Units.TurnOrderOnce | rust/src/day15_v3.rs:202-208 | every unit gets exactly one slot in the turn order |
| Day15Units.Cells | rust/src/day15_v3.rs:59-64 | the cells of the map are exactly the positions inside its rows |
| Day15Units.TreeReaches | rust/src/day15.rs:55-95 | every cell the breadth-first search reaches is reached by a walk through open cells as long as its recorded distance |
| Day15Units.TreeExtend | rust/src/day15.rs:78-91 | expanding a reached cell into open neighbours not yet reached, at one step further, with that cell as their parent, keeps the search tree valid |
| Day15Units.LayerReach | rust/src/day15_v3.rs:118-145 | once every cell nearer than a bound is expanded, any cell reachable within the bound is reached no further than its walk |
| Day15Units.RosterTurn | rust/src/day15_v3.rs:236-266 | a live unit's move and attack keep every slot's kind and power and leave dead units alone |
| Day15Units.LiveFrom | rust/src/day15_v3.rs:271 | every unit kept by the purge was in the roster and is alive |
| Day15Units.OneSideLeft | rust/src/day15_v3.rs:217-219 | once a live unit finds no live enemy, no unit of the purged roster has an enemy left |
| Day15Units.LineupOrder | rust/src/day15_v3.rs:202-206 | in a goblin, elf, goblin row the turns go left to right and the first goblin has the elf next to it |
| Day15Units.LineupAttack | rust/src/day15_v3.rs:255-266 | the first goblin's blow leaves the elf at -1 hit points |
| Day15Units.AftermathSums | rust/src/day15_v3.rs:275-313 | the roster that blow leaves counts one elf, none of them alive, and sums to 399 hit points, where its live units sum to 400 |
| Day15Units.DeadUnitsCounted | rust/src/day15_v3.rs:208-315 | a round can end early with a unit killed in it still on the roster: the dead elf's -1 enters the outcome and part2 still counts it |
| Day15Units.QueuedStep | rust/src/day15_v3.rs:118-145 | popping the head of a distance-ordered queue and appending its neighbours one step further keeps the queue in order of distance |
| Day15Units.CoveredStep | rust/src/day15_v3.rs:118-145 | after that step every reached cell is still popped or queued, at most one layer ahead |
| Day15Units.ExpandedStep | rust/src/day15_v3.rs:137-144 | after expanding a cell into all its open neighbours, every popped cell has its open neighbours reached at most one step further |
| Day15Units.PlacementMove | rust/src/day15_v3.rs:236-239 | moving a unit onto an open floor cell no live unit holds keeps units on floor and no two live units on one cell |
| Day15Units.PlacementAttack | rust/src/day15_v3.rs:265-266 | an attack keeps units on floor and apart |
| Day15Units.PlacementLive | rust/src/day15_v3.rs:271 | the purge keeps units on floor and apart |
| Day15Units.HeadPopped | rust/src/day15_v3.rs:118-145 | every reached cell nearer than the queue's head has been popped |
| Day15Units.HeadShortest | rust/src/day15_v3.rs:118-145 | the queue's head is reached by a walk of its recorded distance and by none shorter |
| Day15Units.HeadBelow | rust/src/day15_v3.rs:118-145 | a cell reachable in fewer steps than the head's distance is already popped, at no more than that many steps |
| Day15Units.NeighbourLayer | rust/src/day15.rs:55-95 | a neighbour of the head reachable in fewer steps than the head is recorded exactly one step nearer |
| Day15Units.Unreached | rust/src/day15_v3.rs:147-149 | once the queue is empty, a cell not popped has no walk to it at all |
| Day15Units.Exhausted | rust/src/day15_v3.rs:118-145 | once the queue is empty, every reachable cell is reached no further than any walk to it |
| Day15Units.SearchStart | rust/src/day15_v3.rs:107-113 | the search begins with the start cell queued at distance 0 and nothing popped |
| Day15Units.PopStop | rust/src/day15_v3.rs:129-135 | popping a target cell without exploring past it keeps the search valid |
| Day15Units.NearestFound | rust/src/day15_v3.rs:118-149 | when the search stops, the targets it collected are exactly the reachable targets at the least distance |
| Day15Units.Least | rust/src/day15_v2.rs:172-185 | the chosen candidate is one of them and none has a lower (distance, y, x) key |
| Day15Units.First | rust/src/day15_v3.rs:151-153 | the chosen target is one of the nearest, and none comes before it in reading order |
| Day15Units.TracedStep | rust/src/day15_v3.rs:208-268 | a traced round extended by the roster the next slot leaves is still a traced round |
| Day15Units.RoundOf | rust/src/day15_v3.rs:200-273 | a trace that plays every slot, or stops at a live unit with no enemy, is a round |
| Day15Units.FoughtStep | rust/src/day15_v3.rs:284-289 | a battle history extended by the purged roster of one more full round is still a battle history |
| Day15Units.SlotsBegin | rust/src/day15_v3.rs:202-208 | before the first slot the round's trace holds only its starting roster |
| Day15V1.Dirs | rust/src/day15.rs:72 | the search tries four directions |
| Day15V1.Toward | rust/src/day15.rs:72-73 | each direction leads to an adjacent cell |
| Day15V1.TowardIff | rust/src/day15.rs:72-124 | the four directions reach exactly the adjacent cells, in reading order (up, left, right, down) |
| Day15V1.Enterables | rust/src/day15.rs:74-194 | the cells a search may enter are exactly the enterable ones: for the first search in-bounds floor that no unit holds, dead or alive; for the search back, floor or the mover's cell where no other live unit stands |
| Day15V1.State.FromInput | rust/src/day15.rs:25-53 | the new state's grid is the map with unit cells cleared, and its units are exactly those read from the map, in reading order |
| Day15V1.State.Visit | rust/src/day15.rs:72-83 | the cells queued are enterable adjacent cells not yet reached, each recorded one step further, and the search tree stays valid |
| Day15V1.State.Advance | rust/src/day15.rs:65-84 | one pop and expansion keeps the breadth-first layering invariant and every recorded distance |
| Day15V1.State.TargetsOf | rust/src/day15.rs:130-142 | the squares listed are exactly the in-bounds floor cells next to a live enemy that no live unit holds |
| Day15V1.State.Sweep | rust/src/day15.rs:56-84 | the whole search runs to completion, and the reachable targets it collects are exactly the popped targets with their distances |
| Day15V1.State.Bfs | rust/src/day15.rs:55-95 | the square returned is a target reachable at the least distance and the first in reading order among those; none is returned only when no target is reachable |
| Day15V1.State.Retrace | rust/src/day15.rs:176-201 | the search back from the target stops at the mover's cell once it is popped, keeping the layering invariant; a mover's cell never reached is never popped |
| Day15V1.State.FirstCloser | rust/src/day15.rs:207-221 | the cell returned is the first adjacent in-bounds cell, in reading order, recorded one step nearer the target; none found leaves the mover in place and means no adjacent cell is |
| Day15V1.State.CloserLayer | rust/src/day15.rs:207-216 | a neighbour one step nearer exists only when the mover is at least one step from the target |
| Day15V1.State.CloserFound | rust/src/day15.rs:207-216 | the first neighbour one step nearer lies on a shortest walk back from the target, before any other such neighbour in reading order, and is the target or free floor |
| Day15V1.State.NoneCloser | rust/src/day15.rs:203-221 | once the mover's cell is reached, a neighbour one step nearer is missing only when the mover is the target or the target lies out of bounds |
| Day15V1.State.GetNextStep | rust/src/day15.rs:174-222 | a step taken lies on a shortest walk from the target, first in reading order, onto the target or free floor; staying put means the mover is the target, the target is out of bounds, or no walk leads back |
| Day15V1.State.StepBack | rust/src/day15.rs:203-221 | from a completed search back that reached the mover, the step chosen is as get_next_step promises |
| Day15V1.State.NextStep | rust/src/day15.rs:129-149 | a unit without an enemy next to it steps towards the square bfs chose, or stays put when none is reachable; a step lands on free floor |
| Day15V1.State.Move | rust/src/day15.rs:118-150 | a unit with an enemy next to it stays put; otherwise it takes its step; nothing else changes |
| Day15V1.State.TakeTurn | rust/src/day15.rs:118-167 | a turn is the unit's move followed by its attack from the new cell |
| Day15V1.State.SimulateRound | rust/src/day15.rs:97-172 | a round plays the turn order: it returns true with the dead purged after every slot, or false, unpurged, at the first live unit with no enemy left; the units keep their slots, kinds and powers |
| Day15V1.State.PlaySlots | rust/src/day15.rs:102-168 | the loop over the turn order traces one slot at a time, ending after the last slot or at the unit that finds no enemy |
| Day15V1.State.PlaySlot | rust/src/day15.rs:103-167 | one slot: a dead unit is skipped, a live unit with no enemy stops the round, any other takes its turn |
| Day15V1.State.Settle | rust/src/day15.rs:170 | the purge keeps exactly the live units, in order |
| Day15V1.Part1 | rust/src/day15.rs:225-235 | the answer is the number of full rounds times the hit-point sum of the roster the stopping round leaves, and the rounds before are the battle's full rounds |
| Day15V1.ElfFight | rust/src/day15.rs:243-249 | the fight at one power ends as part2's battle does: after a round that stops early, or a full round that loses an elf |
| Day15V1.ElfRound | rust/src/day15.rs:243-248 | one round of that fight extends the history by a full round, or ends the battle |
| Day15V1.ElfPower | rust/src/day15.rs:239-249 | the fight at one power starts from the units read with that power and ends in part2's battle |
| Day15V1.Part2 | rust/src/day15.rs:237-259 | every power below the one returned loses an elf; at a power up to 200 the answer is rounds times the hit-point sum of a final roster with as many elves as at the start; past 200 it is 0 |
| Day15V2.OpenIff | rust/src/day15_v2.rs:55-64 | a cell is open exactly when it is on the map, is floor '.', and no live unit stands on it |
| Day15V2.OpenCells | rust/src/day15_v2.rs:59-64 | the open cells are exactly the cells that are open |
| Day15V2.NeighborOfAdjacent | rust/src/day15_v2.rs:66-82 | every neighbour listed is adjacent and has non-negative coordinates, and every adjacent cell inside the first row's width and the map's height is listed |
| Day15V2.NeighborSet | rust/src/day15_v2.rs:66-82 | the neighbour set holds exactly the cells the neighbour rule lists |
| Day15V2.InRangeIff | rust/src/day15_v2.rs:92-100 | a cell is collected as a target exactly when it is open and is a neighbour of a live enemy among the units scanned |
| Day15V2.TargetSetIff | rust/src/day15_v2.rs:84-102 | the target set holds exactly the open cells next to a live enemy |
| Day15V2.Squares | rust/src/day15_v2.rs:75 | the open cells within the first row's width are exactly those cells |
| Day15V2.Passable | rust/src/day15_v2.rs:134 | the cells a search may enter are exactly the open cells and the moving unit's own cell |
| Day15V2.Reach | rust/src/day15_v2.rs:133-134 | the cells a search can step into are exactly the passable cells within the first row's width |
| Day15V2.NearFoundStep | rust/src/day15_v2.rs:123-130 | popping one more cell keeps the targets found so far exactly the popped targets at the first target's distance |
| Day15V2.State.FromInput | rust/src/day15_v2.rs:25-53 | the new state's grid is the map with unit cells cleared, and its units are exactly those read from the map, in reading order |
| Day15V2.State.Neighbors | rust/src/day15_v2.rs:66-82 | the neighbours listed are exactly the neighbour cells, in reading order (up, left, right, down) |
| Day15V2.State.FindTargets | rust/src/day15_v2.rs:84-102 | the squares listed are exactly the open cells next to a live enemy |
| Day15V2.State.Visit | rust/src/day15_v2.rs:133-139 | the cells queued are exactly the listed neighbours not yet visited that are open or the unit's own cell, kept in reading order, each one step further |
| Day15V2.State.Expand | rust/src/day15_v2.rs:133-139 | expanding a cell queues only unvisited passable cells and keeps the search tree valid |
| Day15V2.State.Advance | rust/src/day15_v2.rs:120-140 | one pop and expansion keeps the breadth-first layering invariant and every recorded distance |
| Day15V2.State.NearStep | rust/src/day15_v2.rs:120-140 | one iteration of the target search, with its stop at the first target further than the first one found, keeps the search invariant |
| Day15V2.State.NearestTargets | rust/src/day15_v2.rs:104-144 | every target collected is reachable at the nearest distance, and every reachable target lies at that distance or further and is collected when at that distance |
| Day15V2.State.Backward | rust/src/day15_v2.rs:150-170 | the backward search from the chosen square records for each reached cell the length of a walk, and every cell reachable from the square is recorded no further than any walk to it |
| Day15V2.State.StepFrom | rust/src/day15_v2.rs:172-185 | the step chosen is a neighbour nearest the chosen square, first in reading order among ties; no step means no neighbour reaches the square |
| Day15V2.State.FindMove | rust/src/day15_v2.rs:104-186 | a move found is an adjacent cell one step towards the nearest reachable target square (first in reading order); none found means no target is reachable or no neighbour reaches it |
| Day15V2.State.NextStep | rust/src/day15_v2.rs:224-228 | the step taken is open, adjacent and towards the chosen square in range of an enemy; none means the unit is cornered |
| Day15V2.State.Move | rust/src/day15_v2.rs:210-229 | a unit with an enemy next to it stays put; otherwise it takes find_move's step, or stays put when cornered; nothing else changes |
| Day15V2.State.TakeTurn | rust/src/day15_v2.rs:210-256 | a turn is the unit's move followed by its attack from the new cell |
| Day15V2.State.SimulateRound | rust/src/day15_v2.rs:188-262 | a round plays the turn order: it returns true with the dead purged after every slot, or false, unpurged, at the first live unit with no enemy left; the units keep their slots, kinds and powers |
| Day15V2.State.PlaySlots | rust/src/day15_v2.rs:196-257 | the loop over the turn order traces one slot at a time, ending after the last slot or at the unit that finds no enemy |
| Day15V2.State.PlaySlot | rust/src/day15_v2.rs:197-256 | one slot: a dead unit is skipped, a live unit with no enemy stops the round, any other takes its turn |
| Day15V2.State.Settle | rust/src/day15_v2.rs:260 | the purge keeps exactly the live units, in order |
| Day15V2.Part1 | rust/src/day15_v2.rs:269-281 | the answer is the number of full rounds times the hit-point sum of the roster the stopping round leaves, and the rounds before are the battle's full rounds |
| Day15V2.ElfFight | rust/src/day15_v2.rs:289-300 | the fight at one power ends as part2's battle does: after a round that stops early, or a full round that loses an elf |
| Day15V2.ElfRound | rust/src/day15_v2.rs:290-299 | one round of that fight extends the history by a full round, or ends the battle |
| Day15V2.ElfPower | rust/src/day15_v2.rs:285-300 | the fight at one power starts from the units read with that power and ends in part2's battle |
| Day15V2.Part2 | rust/src/day15_v2.rs:283-309 | every power below the one returned loses an elf; at a power up to 200 the answer is rounds times the hit-point sum of a final roster with as many elves as at the start; past 200 it is 0 |
| Day15V3.OpenIff | rust/src/day15_v3.rs:55-64 | a cell is open exactly when it is on the map, is floor '.', and no live unit stands on it |
| Day15V3.OpenCells | rust/src/day15_v3.rs:59-64 | the open cells are exactly the cells that are open |
| Day15V3.NeighborOfAdjacent | rust/src/day15_v3.rs:66-82 | every neighbour listed is adjacent and has non-negative coordinates, and every adjacent cell inside the first row's width and the map's height is listed |
| Day15V3.NeighborSet | rust/src/day15_v3.rs:66-82 | the neighbour set holds exactly the cells the neighbour rule lists |
| Day15V3.InRangeIff | rust/src/day15_v3.rs:91-100 | a cell is collected as a target exactly when it is open and is a neighbour of a live enemy among the units scanned |
| Day15V3.TargetSetIff | rust/src/day15_v3.rs:90-100 | the target set holds exactly the open cells next to a live enemy |
| Day15V3.Squares | rust/src/day15_v3.rs:75 | the cells a search can step into are exactly the open cells within the first row's width |
| Day15V3.State.FromInput | rust/src/day15_v3.rs:25-53 | the new state's grid is the map with unit cells cleared, and its units are exactly those read from the map, in reading order |
| Day15V3.State.Neighbors | rust/src/day15_v3.rs:66-82 | the neighbours listed are exactly the neighbour cells, in reading order (up, left, right, down) |
| Day15V3.State.Targets | rust/src/day15_v3.rs:84-100 | the squares in range are exactly the open cells next to a live enemy |
| Day15V3.State.Visit | rust/src/day15_v3.rs:138-144 | the cells queued are exactly the listed neighbours not yet visited and open, kept in reading order, each recorded one step further |
| Day15V3.State.Expand | rust/src/day15_v3.rs:137-144 | expanding a cell queues exactly its open unvisited neighbours in reading order and keeps the search tree valid |
| Day15V3.State.Advance | rust/src/day15_v3.rs:118-145 | one pop and expansion keeps the breadth-first layering invariant and keeps every recorded distance |
| Day15V3.State.NearStep | rust/src/day15_v3.rs:118-145 | one iteration of the target search, with its early stop once the layer of the nearest target is passed, keeps the search invariant |
| Day15V3.State.NearestTargets | rust/src/day15_v3.rs:106-149 | every target collected is reachable at the nearest distance, and every reachable target lies at that distance or further and is collected when at that distance |
| Day15V3.State.DistanceTo | rust/src/day15_v3.rs:166-194 | a distance found is the length of a walk to the target, and any walk to the target is at least that long; none is found only when no walk exists |
| Day15V3.State.Consider | rust/src/day15_v3.rs:175-183 | checking one more neighbour keeps the best neighbour the one nearest the target, the first in reading order on ties |
| Day15V3.State.BestOf | rust/src/day15_v3.rs:157-197 | over all neighbours, the best one is nearest the target and first in reading order among ties, or none reaches it |
| Day15V3.State.StepToward | rust/src/day15_v3.rs:155-197 | the step chosen is an open neighbour nearest the target, first in reading order among ties; no step means no open neighbour reaches the target |
| Day15V3.State.FindMove | rust/src/day15_v3.rs:84-198 | a move found is an open adjacent cell one step towards the nearest reachable square in range (first in reading order); none found means no such square is reachable or no neighbour reaches it |
| Day15V3.State.Move | rust/src/day15_v3.rs:222-240 | a unit with an enemy next to it stays put; otherwise it takes find_move's step, or stays put when stuck; nothing else changes |
| Day15V3.State.TakeTurn | rust/src/day15_v3.rs:222-267 | a turn is the unit's move followed by its attack from the new cell |
| Day15V3.State.SimulateRound | rust/src/day15_v3.rs:200-273 | a round plays the turn order: it returns true with the dead purged after every slot, or false, unpurged, at the first live unit with no enemy left; the units keep their slots, kinds and powers |
| Day15V3.State.PlaySlots | rust/src/day15_v3.rs:208-268 | the loop over the turn order traces one slot at a time, ending after the last slot or at the unit that finds no enemy |
| Day15V3.State.PlaySlot | rust/src/day15_v3.rs:209-267 | one slot: a dead unit is skipped, a live unit with no enemy stops the round, any other takes its turn |
| Day15V3.State.Settle | rust/src/day15_v3.rs:271 | the purge keeps exactly the live units, in order |
| Day15V3.Part1 | rust/src/day15_v3.rs:280-292 | the answer is the number of full rounds times the hit-point sum of the roster the stopping round leaves, and the rounds before are the battle's full rounds |
| Day15V3.ElfFight | rust/src/day15_v3.rs:300-311 | the fight at one power ends as part2's battle does: after a round that stops early, or a full round that loses an elf |
| Day15V3.ElfRound | rust/src/day15_v3.rs:301-310 | one round of that fight extends the history by a full round, or ends the battle |
| Day15V3.ElfPower | rust/src/day15_v3.rs:296-311 | the fight at one power starts from the units read with that power and ends in part2's battle |
| Day15V3.Part2 | rust/src/day15_v3.rs:294-320 | every power below the one returned loses an elf; at a power up to 200 the answer is rounds times the hit-point sum of a final roster with as many elves as at the start; past 200 it is 0 |
| Day15V3.Part1Corrected | rust/src/day15_v3.rs:280-292 | with the dead purged when the round ends early, the final roster is all alive and of one side, and the answer is rounds times its hit-point sum |
| Day15V3.Part2Corrected | rust/src/day15_v3.rs:294-320 | with the dead purged when the round ends early, the answer comes from a battle whose final roster is all alive and holds every elf it began with |
| Machine.AllOps | rust/src/day16.rs:94-99 | sixteen opcodes, no two alike |
| Machine.AllOpsComplete | rust/src/day16.rs:94-99 | every opcode is in the list |
| Machine.OpNamed | rust/src/day16.rs:72-91 | a mnemonic that names an opcode names the one whose mnemonic it is |
| Machine.NamesRoundTrip | rust/src/day16.rs:72-91 | each opcode's mnemonic reads back as that opcode |
| Machine.Bit | rust/src/day16.rs:78-81 | every bit of an integer is 0 or 1 |
| Machine.BitOfEnds | rust/src/day16.rs:78-81 | every bit of 0 is 0 and every bit of -1 is 1 |
| Machine.BitOfDouble | rust/src/day16.rs:78-81 | the bits of 2q+r are r followed by the bits of q |
| Machine.AndBit | rust/src/day16.rs:78-79 | each bit of x & y is 1 exactly when that bit of both x and y is 1 |
| Machine.OrBit | rust/src/day16.rs:80-81 | each bit of x \| y is 1 exactly when that bit of x or of y is 1 |
| Machine.AndBounds | rust/src/day16.rs:78-79 | on non-negative operands x & y is non-negative and at most each of them |
| Machine.OrBounds | rust/src/day16.rs:80-81 | on non-negative operands x \| y is at least each of them and at most their sum |
| Machine.ValueReadsOperands | rust/src/day16.rs:72-91 | the value written depends only on the registers the opcode reads |
| Machine.ValueKinds | rust/src/day16.rs:82-89 | comparisons write 0 or 1, eqrr writes 1 exactly when the two registers are equal, gtrr exactly when the first is greater, setr copies register a and seti writes a |
| Machine.Apply | rust/src/day16.rs:72-91 | executing an instruction writes its value to register c and leaves every other register as it was |
| Machine.Execute | rust/src/day16.rs:72-91 | executing in place on the register array leaves it as the functional execute describes |
| Day16.MatchesSample | rust/src/day16.rs:101-105 | the check is true exactly when the opcode turns the before registers into the after registers |
| Day16.MatchCount | rust/src/day16.rs:113-115 | the number of matching opcodes is at most the number tried |
| Day16.Ambiguous | rust/src/day16.rs:111-118 | the number of samples with three or more matching opcodes is at most the number of samples |
| Day16.Part1 | rust/src/day16.rs:107-119 | the count returned is the number of samples that three or more of the sixteen opcodes match |
| Day16.Example | rust/src/day16.rs:192-194 | the sample of the tests can be tried with every opcode |
| Day16.ExampleMatchers | rust/src/day16.rs:199-210 | the test sample is matched by exactly mulr, addi and seti |
| Day16.ExampleCount | rust/src/day16.rs:199-210 | counting matches of the test sample counts the mulr, addi and seti in the list |
| Day16.ExampleHitsFront | rust/src/day16.rs:94-99 | the first eight opcodes hold two of those three |
| Day16.ExampleHitsAll | rust/src/day16.rs:94-99 | the sixteen opcodes hold all three |
| Day16.ExampleMatches | rust/src/day16.rs:190-197 | the test sample matches three opcodes, so part1 of that one sample is 1 |
| Day16.Consistent | rust/src/day16.rs:131-142 | an opcode is consistent for a number exactly when it matches every sample with that number |
| Day16.NarrowedStart | rust/src/day16.rs:126-129 | before any sample, every number 0 to 15 has all sixteen opcodes as candidates |
| Day16.NarrowStep | rust/src/day16.rs:132-141 | intersecting one more sample's matches into its number's candidates keeps each number's candidates exactly the opcodes consistent with the samples so far |
| Day16.MatchingOps | rust/src/day16.rs:134-137 | the set built holds exactly the opcodes the sample matches |
| Day16.AllCandidates | rust/src/day16.rs:126-129 | the starting map has the numbers 0 to 15, each with every opcode |
| Day16.Eliminate | rust/src/day16.rs:126-142 | after the elimination loop each number's candidates are exactly the opcodes consistent with all its samples |
| Day16.Without | rust/src/day16.rs:160-162 | removing an opcode keeps the numbers and takes that opcode out of each candidate set |
| Day16.DeduceStep | rust/src/day16.rs:157-162 | fixing a number with a single candidate and removing that opcode everywhere keeps the mapping consistent with the samples and one-to-one |
| Day16.Given | rust/src/day16.rs:157-158 | giving an unmapped number an opcode adds exactly that opcode to the opcodes taken |
| Day16.GiveAway | rust/src/day16.rs:157-162 | after a number is given its opcode and the opcode leaves every candidate set, each number's candidates are still its narrowed ones less the opcodes taken |
| Day16.Deduce | rust/src/day16.rs:145-166 | the mapping gives each mapped number an opcode consistent with its samples, no opcode twice; each number's candidates are its narrowed ones less the opcodes taken; the loop ends with all sixteen mapped or with no unmapped number that has exactly one narrowed candidate not yet taken |
| Day16.RunMapped | rust/src/day16.rs:169-174 | running keeps the register count |
| Day16.RunSkipsUnmapped | rust/src/day16.rs:171 | an instruction whose number is unmapped changes nothing |
| Day16.Part2 | rust/src/day16.rs:121-177 | the deduced mapping is one-to-one over numbers 0 to 15 and matches every sample, and it is complete as far as elimination goes: with fewer than sixteen mapped, no unmapped number has exactly one consistent opcode not yet taken; the answer is register 0 after running the program from zeros, or none where an operand names no register |
| Day16.RunStaysFailed | rust/src/day16.rs:170-174 | once a prefix of the program fails, the whole program fails |
| Day17.Cells | rust/src/day17.rs:112-119 | a vein covers exactly the squares of its column (x=) or row (y=) from its start to its end |
| Day17.ParseLine | rust/src/day17.rs:102-110 | a line read gives coordinates that fit in an i32 |
| Day17.FindAfterName | rust/src/day17.rs:104 | in "x=…" or "y=…" the first '=' is at index 1 |
| Day17.SplitVein | rust/src/day17.rs:102 | a vein's text splits at ", " into its name part and its range part |
| Day17.SplitRange | rust/src/day17.rs:108 | a range's text splits at ".." into its start and its end |
| Day17.ReadNamePart | rust/src/day17.rs:104-105 | the name part reads back as the vein's fixed coordinate and tells whether the vein is vertical |
| Day17.ReadRangePart | rust/src/day17.rs:107-110 | the range part reads back as the vein's start and end |
| Day17.ParseShowLine | rust/src/day17.rs:101-119 | reading a vein's text gives back that vein |
| Day17.ShowVeins | rust/src/day17.rs:101 | one line per vein |
| Day17.ParseShowVeins | rust/src/day17.rs:98-123 | reading the lines of a list of veins gives the union of their squares |
| Day17.ParseInput | rust/src/day17.rs:98-123 | the loop builds the clay of the scan, or fails where a line does not parse |
| Day17.AddVein | rust/src/day17.rs:112-119 | adding a vein adds exactly its squares to the clay |
| Day17.NoneStays | rust/src/day17.rs:101-120 | once a line fails to parse the whole scan fails |
| Day17.Extent | rust/src/day17.rs:14-15 | minY and maxY bound every clay square's y and are attained by some clay square |
| Day17.Row | rust/src/day17.rs:68-71 | a row holds exactly the squares of line y from one x to another |
| Day17.Box | rust/src/day17.rs:30-82 | a box holds exactly the squares within its bounds |
| Day17.RowInBox | rust/src/day17.rs:68-71 | a row within a box's bounds is inside the box |
| Day17.BoxBelow | rust/src/day17.rs:42-44 | the box starting one row lower is inside the box |
| Day17.DryCount | rust/src/day17.rs:39 | the dry-square count of a box is the number of its squares not yet wet |
| Day17.DryLess | rust/src/day17.rs:30-82 | more water never leaves more of a box dry |
| Day17.Shrinks | rust/src/day17.rs:39 | wetting a new square of the box shrinks the part of the box still dry, so `flow`'s recursion ends |
| Day17.StillHeld | rust/src/day17.rs:66-71 | resting water stays held by clay or resting water below and on both sides when new held squares come to rest |
| Day17.FallsStill | rust/src/day17.rs:41-47 | running water keeps a floor when more squares fill and every new running square has a floor or is still pending |
| Day17.Released | rust/src/day17.rs:42-47 | a running square stops pending once the square below it is filled, or when it is on the last row |
| Day17.ListedAt | rust/src/day17.rs:39 | once the order lists the wet squares, a square is listed exactly when it is wet |
| Day17.ListedAdd | rust/src/day17.rs:39 | a square that starts to run joins the listing |
| Day17.ListedSame | rust/src/day17.rs:68-71 | water that only turns from running to resting keeps the listing |
| Day17.Feed | rust/src/day17.rs:43 | appending a square fed from below, left or right by a listed one keeps every square fed by an earlier one |
| Day17.OrderReached | rust/src/day17.rs:30-82 | every square of a fed order from the spring ends a wet path from the spring |
| Day17.Grid.constructor | rust/src/day17.rs:13-24 | a new grid holds the clay, no water, and minY and maxY the least and greatest y of the clay |
| Day17.Grid.WalledLeft | rust/src/day17.rs:62-71 | to the left of a resting square there is clay on its row, with resting water all the way between |
| Day17.Grid.WalledRight | rust/src/day17.rs:62-71 | to the right of a resting square there is clay on its row, with resting water all the way between |
| Day17.Grid.SpreadLeft | rust/src/day17.rs:49-53 | the spread left marks running water on exactly the squares from where it stops to just left of x, each one dry before and standing on clay or resting water; it stops at a wall or above a drop, and each new square is fed by its neighbour |
| Day17.Grid.SpreadRight | rust/src/day17.rs:56-60 | the spread right marks running water on exactly the squares from just right of x to where it stops, each dry before and standing on something blocked; it stops at a wall or above a drop |
| Day17.Grid.Rest | rust/src/day17.rs:68-71 | the loop moves exactly the squares of the row from running to resting water |
| Day17.Grid.Settle | rust/src/day17.rs:66-71 | a row between two walls, standing on something blocked, comes to rest, and all resting water stays held on both sides and below |
| Day17.Grid.Flow | rust/src/day17.rs:30-82 | it does nothing below maxY, on running water or on a blocked square; otherwise the square gets filled. Water is only added, within the box below y, every wet square is reached from the spring, resting water is held, and running water falls onto something |
| Day17.Grid.Descend | rust/src/day17.rs:39-81 | on a dry square the water enters, goes down, and spreads once blocked below; the square is filled afterwards and the invariants hold |
| Day17.Grid.Enter | rust/src/day17.rs:39 | the square starts to run, is listed, and is fed by a wet neighbour or is the spring |
| Day17.Grid.Fall | rust/src/day17.rs:41-44 | after the fall the square below is filled, so the running square has a floor |
| Day17.Grid.Spread | rust/src/day17.rs:47-81 | the row from l to r is wet, each square of it was dry and stood on something blocked, and each end stopped at a wall or a drop. With walls on both sides exactly that row comes to rest; otherwise an open left edge is wet, and so is an open right edge unless the square below it got blocked |
| Day17.Grid.Reach | rust/src/day17.rs:48-60 | both walks together: exactly the squares l..r other than x start running, and both ends stopped at a wall or a drop |
| Day17.Grid.Spill | rust/src/day17.rs:72-80 | an open left edge over a drop gets wet, and an open right edge gets wet unless the square below it is blocked by then; the invariants hold |
| Day17.Grid.InRows | rust/src/day17.rs:84-95 | the squares kept are exactly those between minY and maxY |
| Day17.Grid.WaterCount | rust/src/day17.rs:84-95 | the chained count of running and resting water is the number of wet squares in the clay's rows, and the resting count is at most that |
| Day17.Grid.TracedReached | rust/src/day17.rs:30-82 | every wet square is at the end of a path of wet squares from the spring, each step down, left or right |
| Day17.Pour | rust/src/day17.rs:125-130 | pouring works exactly when the scan parses and has clay. Afterwards running water above maxY has clay or water below it, and resting water has clay or resting water below and on both sides. Every wet square is reached from the spring and lies between the spring's row and maxY, and the spring's square is filled unless it is below maxY |
| Day17.Part1 | rust/src/day17.rs:125-133 | an answer exists exactly when the scan parses and has clay; it is the number of wet squares between minY and maxY of a grid left as Pour describes |
| Day17.Part2 | rust/src/day17.rs:135-143 | an answer exists exactly when the scan parses and has clay; it is the number of resting squares between minY and maxY of a grid left as Pour describes, at most part1's count |
| Day18.Glyph | rust/src/day18.rs:16-114 | each acre's character reads back as that acre and is no line break |
| Day18.ParseRow | rust/src/day18.rs:14-22 | a line reads as one acre per character, each the acre of its character, or fails exactly when some character is not '.', '\|' or '#' |
| Day18.ParseRows | rust/src/day18.rs:12-24 | the lines read as one row each, or fail exactly when some line fails |
| Day18.ShowRows | rust/src/day18.rs:107-117 | one line per row |
| Day18.ParseShowRow | rust/src/day18.rs:14-116 | reading a shown row gives it back |
| Day18.ParseShowRows | rust/src/day18.rs:12-117 | reading the shown rows gives them back |
| Day18.ParseShowGrid | rust/src/day18.rs:11-119 | parse_input of grid_to_string gives the grid back, for a grid whose last row is not empty |
| Day18.ShowInjective | rust/src/day18.rs:133-139 | two grids with the same string are the same grid, so the cycle table keys states soundly |
| Day18.RowSetMembers | rust/src/day18.rs:35-46 | the offsets counted in one row of the scan are exactly those before the bound that are in bounds and hold the kind |
| Day18.AreaSetMembers | rust/src/day18.rs:34-47 | the offsets counted in the rows scanned so far are exactly those in bounds, other than (0, 0), holding the kind |
| Day18.RowCountIsSize | rust/src/day18.rs:35-46 | the count over one row is the number of those offsets |
| Day18.AreaCountIsSize | rust/src/day18.rs:34-47 | the count over the rows scanned so far is the number of those offsets |
| Day18.AreaStep | rust/src/day18.rs:34-47 | adding one more row of offsets keeps the count equal to the number of offsets |
| Day18.RowBelowArea | rust/src/day18.rs:34-35 | the offsets of a new row are none of those already scanned |
| Day18.AdjacentIsNeighbours | rust/src/day18.rs:27-49 | count_adjacent is the number of in-bounds neighbours of that kind, not counting the acre itself |
| Day18.AreaSetIsNeighbours | rust/src/day18.rs:34-47 | the full scan covers exactly the neighbour offsets |
| Day18.AdjacentAtMost8 | rust/src/day18.rs:27-49 | an acre has at most eight neighbours of a kind |
| Day18.RowAtMost | rust/src/day18.rs:35-46 | one row contributes at most three, and the middle row at most two |
| Day18.CountAdjacent | rust/src/day18.rs:27-49 | the loop counts exactly the neighbours of that kind |
| Day18.CountRowOffsets | rust/src/day18.rs:35-46 | the inner loop counts exactly that row's neighbours of the kind |
| Day18.Rule | rust/src/day18.rs:58-82 | an acre stays or becomes its successor, and changes exactly when open has three trees around, trees have three lumberyards around, or a lumberyard lacks a lumberyard or trees around |
| Day18.Next | rust/src/day18.rs:51-87 | one minute keeps the grid's shape |
| Day18.OpenStays | rust/src/day18.rs:59-65 | an all-open grid stays as it is |
| Day18.NewAcre | rust/src/day18.rs:58-82 | the acre computed is the one the rule gives from its neighbours |
| Day18.SimulateMinute | rust/src/day18.rs:51-87 | the new grid is the grid after one minute, each acre by the rule from the old grid |
| Day18.RowPartition | rust/src/day18.rs:93-101 | every acre of a row is open, trees or lumberyard |
| Day18.CountPartition | rust/src/day18.rs:89-104 | the three counts add up to the grid's size |
| Day18.ValueZero | rust/src/day18.rs:103 | the value is 0 exactly when there are no trees or no lumberyards |
| Day18.ResourceValue | rust/src/day18.rs:89-104 | the loop computes trees times lumberyards |
| Day18.Step | rust/src/day18.rs:51-87 | on a grid that fits, a step is one minute |
| Day18.IterateShape | rust/src/day18.rs:124-126 | any number of minutes keeps the grid's shape |
| Day18.RepeatAdd | rust/src/day18.rs:136-154 | a+b steps are a steps then b steps |
| Day18.IterateAdd | rust/src/day18.rs:146-148 | a+b minutes are a minutes then b minutes |
| Day18.Cycles | rust/src/day18.rs:139-143 | once the state after m steps repeats the one after p, going round the cycle k more times returns to the same state |
| Day18.RepeatSkip | rust/src/day18.rs:141-143 | after a repeat at p and m, the state at any later t is the state at m plus (t - m) mod (m - p) |
| Day18.CycleSkip | rust/src/day18.rs:139-148 | for grids: the grid after t minutes is the grid after m plus the remainder |
| Day18.Part1 | rust/src/day18.rs:121-129 | the answer is the resource value after ten minutes, or none where the grid does not parse or is ragged |
| Day18.SkipTo | rust/src/day18.rs:139-148 | from the repeat, the offset more minutes reach the grid of the billionth minute |
| Day18.SkipCycle | rust/src/day18.rs:139-150 | the value returned on finding a cycle is the value after a billion minutes |
| Day18.Run | rust/src/day18.rs:146-148 | running n minutes gives the grid after n minutes |
| Day18.Part2 | rust/src/day18.rs:131-158 | the answer is the resource value after a billion minutes, or none where the grid does not parse or is ragged |
| ElfCode.ParseLine | rust/src/day19.rs:54-62 | a line read gives an opcode word and three operands that fit in an i64 |
| ElfCode.ParseLines | rust/src/day19.rs:52-63 | one instruction per line |
| ElfCode.ParsedLines | rust/src/day19.rs:52-63 | the lines parse exactly when every line parses, and each instruction is its line's |
| ElfCode.ParseInput | rust/src/day19.rs:44-69 | a program read has the register its "#ip" header names and one instruction per later line |
| ElfCode.ShowLines | rust/src/day19.rs:52-63 | one line per instruction |
| ElfCode.ShowLinesAt | rust/src/day19.rs:52-63 | each shown line is its instruction's text |
| ElfCode.ParseShowLine | rust/src/day19.rs:54-62 | reading an instruction's text gives it back |
| ElfCode.ParseShowLines | rust/src/day19.rs:52-63 | reading the texts of instructions gives them back |
| ElfCode.ParseShowProgram | rust/src/day19.rs:44-69 | reading a program's text gives the program back |
| ElfCode.Exec | rust/src/day19.rs:18-42 | executing an instruction keeps the register count |
| ElfCode.Step | rust/src/day19.rs:75-85 | one step keeps the register count |
| ElfCode.StepBy | rust/src/day19.rs:77-84 | a step writes the ip to the bound register, executes the instruction, and continues at the bound register plus one |
| ElfCode.StepWrites | rust/src/day19.rs:18-85 | a step panics exactly when the bound register, the opcode name or a register operand is out of range; otherwise the next ip is the bound register plus one, register c gets the opcode's value over the registers with the ip written in, and no other register but the bound one changes |
| ElfCode.Run | rust/src/day19.rs:71-88 | a halted run keeps the register count |
| ElfCode.RunOnce | rust/src/day19.rs:75-85 | a run from a running state is one step followed by the run from there |
| ElfCode.RunStep | rust/src/day19.rs:75-85 | a run from a running state panics when the step does, and otherwise goes on from the next state |
| ElfCode.RunSplit | rust/src/day19.rs:75-85 | a run of f+g steps is a run of f steps followed, if it has not stopped, by g more |
| ElfCode.Start | rust/src/day19.rs:72-73 | the start state has six registers |
| ElfCode.ExecuteNamed | rust/src/day19.rs:18-42 | executing in place succeeds exactly when the functional execute does, and leaves the registers as it says |
| ElfCode.StepInPlace | rust/src/day19.rs:77-84 | a step in place leaves the registers and ip the functional step gives |
| Day19.RunProgram | rust/src/day19.rs:71-88 | the loop ends in the state the step-by-step run reaches |
| Day19.Part1 | rust/src/day19.rs:100-103 | an answer exists exactly when the program parses and halts, and it is register 0 at the halt |
| Day19.ShowDigitLine | rust/src/day19.rs:150-157 | an instruction with one-digit operands shows as its opcode and three digits |
| Day19.SampleLine | rust/src/day19.rs:150-157 | each sample instruction shows as its line of the test program |
| Day19.SampleShown | rust/src/day19.rs:150-157 | the sample program shows as the test text |
| Day19.SampleWritable | rust/src/day19.rs:150-157 | every sample instruction reads back from its text |
| Day19.SampleParses | rust/src/day19.rs:150-158 | the test text parses to the sample program |
| Day19.SampleStep1 | rust/src/day19.rs:150-158 | the first step of the test run |
| Day19.SampleStep2 | rust/src/day19.rs:150-158 | the second step of the test run |
| Day19.SampleStep3 | rust/src/day19.rs:150-158 | the third step of the test run |
| Day19.SampleStep4 | rust/src/day19.rs:150-158 | the fourth step of the test run |
| Day19.SampleStep5 | rust/src/day19.rs:150-158 | the fifth step of the test run |
| Day19.SampleHalts | rust/src/day19.rs:148-159 | the test program halts after five steps with register 0 at 6 |
| Day19.SumOfDivisors | rust/src/day19.rs:90-98 | the loop computes the sum of the divisors of n from 1 to n |
| Day19.OnlyOne | rust/src/day19.rs:92-96 | with no divisor from 2 to k, the sum up to k is 1 |
| Day19.DivisorCounted | rust/src/day19.rs:92-96 | a divisor d above 1 up to k makes the sum up to k at least 1 + d |
| Day19.AtLeastOne | rust/src/day19.rs:92-96 | the sum up to any k from 1 is at least 1 |
| Day19.Nonneg | rust/src/day19.rs:92-96 | the sum is never negative |
| Day19.DivisorSumPrime | rust/src/day19.rs:90-98 | the divisor sum of n is 0 for n at most 0, 1 for 1, and for n from 2 at least n + 1, equal to it exactly when n is prime |
| Day19.WarmUpIsRunPrefix | rust/src/day19.rs:114-130 | part2's set-up loop takes at most 100 steps and ends where the full run is after that many steps |
| Day19.Part2 | rust/src/day19.rs:105-135 | the answer is the divisor sum of register 1 after the set-up loop from register 0 = 1, or none where the program does not parse or the set-up panics |
| Day20.Move | rust/src/day20.rs:16-22 | a door letter moves one room, a Manhattan distance of one |
| Day20.Feed | rust/src/day20.rs:13-40 | reading one character fails exactly when it is ')' or '\|' with no open branch, where the source panics on the empty stack |
| Day20.WalkedOnce | rust/src/day20.rs:12-41 | walking a text is reading its first character and walking the rest |
| Day20.ParseRegex | rust/src/day20.rs:4-44 | the loop builds the distance map the walk over the whole text gives, or fails where the walk does |
| Day20.FeedKeeps | rust/src/day20.rs:13-40 | reading a character keeps the current room and every branch point recorded with distances between 0 and the characters read, never raises a recorded distance, and only door letters change the map |
| Day20.NoFartherTransitive | rust/src/day20.rs:24-26 | "every room kept at a distance no larger" chains |
| Day20.WalkedKeeps | rust/src/day20.rs:12-41 | the whole walk keeps those bounds and never raises a recorded distance |
| Day20.WalkBounds | rust/src/day20.rs:10-26 | the start room is at distance 0 and every distance lies between 0 and the length of the text |
| Day20.MaxDistance | rust/src/day20.rs:50 | the result is the largest distance in the map, 0 for an empty map |
| Day20.CountFar | rust/src/day20.rs:57 | the count is the number of rooms at distance 1000 or more |
| Day20.Part1 | rust/src/day20.rs:46-51 | the answer is the largest distance over the trimmed text's walk, none exactly when the walk panics |
| Day20.Part2 | rust/src/day20.rs:53-58 | the answer is the number of rooms at least 1000 doors away, none exactly when the walk panics |
| Day20.SampleWalk | rust/src/day20.rs:73 | walking "^WNE$" records four rooms at 0 to 3 |
| Day20.SampleFurthest | rust/src/day20.rs:73 | part1 of "^WNE$" is 3 |
| Day21.Bound | rust/src/day21.rs:77 | writing the ip into the bound register keeps the register count |
| Day21.FirstRepeatNoted | rust/src/day21.rs:81-88 | noting one more new value moves it from the trace to the values seen |
| Day21.FirstRepeatSeen | rust/src/day21.rs:82-85 | when the next value was already seen, the values noted so far are the answer |
| Day21.HaltingIsFirstRepeat | rust/src/day21.rs:64-95 | the values returned are the register-1 values at instruction 28 in the order first seen, up to the first repeat |
| Day21.HaltingOnce | rust/src/day21.rs:76-92 | one step of the loop notes register 1 at instruction 28 and goes on from the next state |
| Day21.HaltingPass | rust/src/day21.rs:77-91 | a step that executes goes on at the bound register plus one |
| Day21.HaltingOutOfFuel | rust/src/day21.rs:76 | a run with no steps left gives no answer |
| Day21.HaltingRepeat | rust/src/day21.rs:81-85 | a value already seen at instruction 28 ends the loop with the values noted |
| Day21.HaltingPanics | rust/src/day21.rs:90 | an instruction that panics gives no answer |
| Day21.FindHaltingValues | rust/src/day21.rs:64-95 | the loop returns the values the step-by-step definition gives |
| Day21.Part1 | rust/src/day21.rs:97-100 | the answer is the first value noted, 0 if none, or none where the program does not parse or the run panics |
| Day21.Part2 | rust/src/day21.rs:102-105 | the answer is the last value noted, 0 if none, or none where the program does not parse or the run panics |
| Day22.Erosion | rust/src/day22.rs:34-57 | the erosion level of a region, from the geologic index rules, is below the modulus 20183 |
| Day22.RegionOf | rust/src/day22.rs:59-66 | the region type is rocky, wet or narrow exactly when the erosion level is 0, 1 or 2 modulo 3 |
| Day22.ToolsAllowed | rust/src/day22.rs:68-75 | every region allows two distinct tools, and a tool is allowed exactly when it is not the one the region forbids |
| Day22.Cave.constructor | rust/src/day22.rs:26-32 | a new cave records depth and target with an empty erosion cache |
| Day22.Cave.GeologicIndex | rust/src/day22.rs:34-46 | the memoised geologic index equals the recursive definition, and the cache only grows |
| Day22.Cave.ErosionLevel | rust/src/day22.rs:48-57 | the memoised erosion level equals the recursive definition, is cached afterwards, and the cache only grows |
| Day22.Cave.RegionType | rust/src/day22.rs:59-66 | the region type computed through the cache is the region of the definition |
| Day22.Cave.ValidTools | rust/src/day22.rs:68-75 | the tools computed through the cache are the ones the region allows |
| Day22.MouthErosion | rust/src/day22.rs:35-36 | the mouth has geologic index 0, so its erosion level is the depth modulo 20183 |
| Day22.ParseNumbers | rust/src/day22.rs:80-85 | every comma-separated part parses as an i32, in order, or parsing fails |
| Day22.ParseInput | rust/src/day22.rs:77-87 | a parse succeeds only on a "depth: " line followed by a "target: " line, whose numbers are the result |
| Day22.ParseShowInput | rust/src/day22.rs:77-87 | parsing the printed input gives back its depth and target |
| Day22.AreaRiskBound | rust/src/day22.rs:89-100 | the risk of a rectangle is at most 2 per region |
| Day22.Part1 | rust/src/day22.rs:89-100 | the loop sums the risk of every region from the mouth to the target, inclusive |
| Day22.MouthReachable | rust/src/day22.rs:110 | the search starts at time 0 at the mouth holding the torch, a reachable state |
| Day22.StepReachable | rust/src/day22.rs:125-149 | a tool switch (7 minutes) or a move to an adjacent region that allows the held tool (1 minute) keeps a state reachable |
| Day22.ReachablePlaced | rust/src/day22.rs:136-149 | a reachable state has non-negative coordinates and time, and once its time is above 0 it holds a tool its region allows; the mouth itself starts with the torch whatever its region |
| Day22.PopMin | rust/src/day22.rs:112 | the popped state is a least one in the order of the min-heap, and the rest is the heap without it |
| Day22.PushSwitches | rust/src/day22.rs:124-133 | every pushed state is a switch to another allowed tool, so the heap holds only reachable states |
| Day22.PushMoves | rust/src/day22.rs:135-149 | every pushed state is a move to a non-negative neighbour that allows the held tool, so the heap holds only reachable states |
| Day22.Part2 | rust/src/day22.rs:102-153 | a returned time other than -1 is a time at which the target can be reached holding the torch |
| Day23.Distance | rust/src/day23.rs:14-16 | the Manhattan distance is never negative |
| Day23.DistanceZero | rust/src/day23.rs:14-16 | the distance is zero exactly at the bot's own position |
| Day23.StrongestUnique | rust/src/day23.rs:47 | there is only one bot that max_by_key picks: a largest radius, the last among equals |
| Day23.Strongest | rust/src/day23.rs:47 | the loop finds the bot max_by_key picks |
| Day23.CountInRange | rust/src/day23.rs:50 | the count is the number of bots within the strongest bot's radius |
| Day23.Part1 | rust/src/day23.rs:43-51 | no answer for no bots; otherwise the number of bots in range of the strongest one |
| Day23.ReachesItself | rust/src/day23.rs:18-20 | a bot with a non-negative radius is in its own range, so part 1 answers at least 1 |
| Day23.Sample1Reach | rust/src/day23.rs:158-170 | in the first sample the strongest bot is the first one and 7 bots are in its range |
| Day23.Gap | rust/src/day23.rs:116-122 | the distance from a coordinate to an interval is never negative |
| Day23.CountTouching | rust/src/day23.rs:112-145 | the loop counts the bots whose range meets the cube |
| Day23.PointCube | rust/src/day23.rs:112-145 | for a cube of size 0 a bot touches it exactly when the point is in the bot's range |
| Day23.GapInside | rust/src/day23.rs:116-122 | a coordinate is no closer to a sub-interval than to the interval around it |
| Day23.InnerCubeReach | rust/src/day23.rs:112-145 | a cube inside another reaches a subset of its bots |
| Day23.ChildReach | rust/src/day23.rs:89-98 | each of the eight child cubes reaches no more bots than its parent |
| Day23.OddFaceUncovered | rust/src/day23.rs:89-96 | for an odd size the halves, each size / 2 wide, leave the parent's far face uncovered |
| Day23.PopMax | rust/src/day23.rs:75 | the popped entry is a greatest one in the lexicographic tuple order of the max-heap, and the rest is the queue without it |
| Day23.TotalRemove | rust/src/day23.rs:75 | removing an entry lowers the queue's weight by the entry's weight |
| Day23.Consider | rust/src/day23.rs:80-86 | the best is replaced exactly when a point is reached by more bots, or by as many and is no farther from the origin |
| Day23.PushChild | rust/src/day23.rs:98-103 | a child is queued with its true count and its distance from the origin, or not at all |
| Day23.PushChildren | rust/src/day23.rs:89-106 | the eight children weigh less than their parent, and every queued count is true |
| Day23.Explore | rust/src/day23.rs:75-107 | one pop keeps every queued count true and the best a point reached by that many bots at that distance, and the queue's weight drops |
| Day23.Part2 | rust/src/day23.rs:53-110 | no answer for no bots; otherwise the answer is the initial i64::MAX or the distance of a point reached by the best count of bots |
| Day24.DamageCases | rust/src/day24.rs:28-36 | the damage is 0 against an immunity, twice the effective power against a weakness and the effective power otherwise |
| Day24.PowerNonNegative | rust/src/day24.rs:24-26 | a group with non-negative units and damage has non-negative effective power |
| Day24.BoostOnlyImmune | rust/src/day24.rs:100-105 | the boost raises the attack damage of immune-system groups only and changes nothing else |
| Day24.BoostWellFormed | rust/src/day24.rs:100-105 | a non-negative boost keeps the groups well formed |
| Day24.ApplyBoost | rust/src/day24.rs:100-105 | the loop applies the boost group by group |
| Day24.Retain | rust/src/day24.rs:109 | the groups kept are exactly those with units left |
| Day24.RetainTotal | rust/src/day24.rs:109 | dropping dead groups keeps the unit total |
| Day24.AnyOf | rust/src/day24.rs:112-113 | an army is alive exactly when some group belongs to it |
| Day24.SortDescSorted | rust/src/day24.rs:129-133 | the sort is by descending key and a permutation of its input |
| Day24.BestIsBest | rust/src/day24.rs:141-166 | no target exactly when no defender is eligible; otherwise no eligible defender is preferred to the chosen one by damage, effective power and initiative, and among equals the first is kept |
| Day24.SelectChosen | rust/src/day24.rs:135-172 | in selection order each attacker takes its best untargeted defender, and no defender is taken twice |
| Day24.SelectTargets | rust/src/day24.rs:135-172 | the loop builds the pairs of the selection definition |
| Day24.ChooseTarget | rust/src/day24.rs:141-166 | the inner loop finds the best eligible defender of the definition |
| Day24.AttackPhase | rust/src/day24.rs:177-191 | the loop gives the groups and the any-killed flag of the attack definition |
| Day24.AttackFrame | rust/src/day24.rs:178-191 | an attack changes only unit counts, and only of groups some pair targets |
| Day24.StrikeLowers | rust/src/day24.rs:179-190 | one strike never raises the unit total and lowers it when it kills |
| Day24.AttackLowers | rust/src/day24.rs:177-191 | with distinct live defenders, the attack phase never raises the unit total and lowers it when a unit dies |
| Day24.SelectInRange | rust/src/day24.rs:135-175 | the sorted pairs name groups in range, live defenders, each at most once |
| Day24.RoundLowers | rust/src/day24.rs:124-196 | a round that kills a unit lowers the unit total, so the fight ends |
| Day24.FightWinner | rust/src/day24.rs:107-197 | a fight that ends with a winner reports a non-negative unit total |
| Day24.SimulateCombat | rust/src/day24.rs:99-198 | the loop returns the fight's outcome on the boosted groups: the winning army and its units, or none on a stalemate |
| Day24.Part1 | rust/src/day24.rs:200-207 | the answer is the winner's unit total without a boost, or 0 on a stalemate, never negative |
| Day24.FirstFromIsFirst | rust/src/day24.rs:212-218 | the search finds the least boost in range that satisfies the test, or none when no boost does |
| Day24.TryBoost | rust/src/day24.rs:213-216 | a boost wins exactly when the immune system wins the fight, with that fight's unit total |
| Day24.Part2 | rust/src/day24.rs:209-221 | the answer is the unit total of the smallest boost from 1 with which the immune system wins |
| Day24Parse.ReadProperties | rust/src/day24.rs:60-66 | the loop over the "; " parts gives the weaknesses and immunities of the definition |
| Day24Parse.ReadShowProperties | rust/src/day24.rs:57-68 | reading back a printed "weak to …; immune to …" part gives its weaknesses and immunities |
| Day24Parse.Position | rust/src/day24.rs:76 | the position of a word is its first occurrence, or none when it is absent |
| Day24Parse.GroupFields | rust/src/day24.rs:71-91 | a parsed group takes its units from word 0, hit points from word 4, damage and type after "does", initiative from the last word |
| Day24Parse.ReadSpecial | rust/src/day24.rs:57-68 | the text between the first '(' and the first ')' gives the properties of the definition, and none without both |
| Day24Parse.ParseGroup | rust/src/day24.rs:52-92 | a group line parses as the definition says, or fails where the source panics |
| Day24Parse.ReadWords | rust/src/day24.rs:71-91 | the word fields are read as the definition says |
| Day24Parse.ParseInput | rust/src/day24.rs:39-97 | the loop over the lines gives the groups of the definition, skipping blank lines and switching army at each header |
| Day24Parse.IdsInOrder | rust/src/day24.rs:92 | the ids of the parsed groups are their positions |
| Day24Parse.ImmuneUntilHeader | rust/src/day24.rs:41-50 | groups before the "Infection:" header belong to the immune system |
| Day25.Distance | rust/src/day25.rs:12-17 | the four-dimensional Manhattan distance is non-negative and zero exactly between equal points |
| Day25.DistanceSymmetric | rust/src/day25.rs:12-17 | the distance is symmetric |
| Day25.ParseInput | rust/src/day25.rs:64-77 | every line parses as a point, in order, or parsing fails |
| Day25.ParseShowPoint | rust/src/day25.rs:68-74 | parsing a printed point gives it back |
| Day25.RootAnyRank | rust/src/day25.rs:33-38 | the root of an element does not depend on which rank bound proves the forest acyclic |
| Day25.CompressKeepsRoot | rust/src/day25.rs:35 | pointing an element at its root changes no element's root |
| Day25.LinkRoots | rust/src/day25.rs:48-55 | hanging one root under another moves exactly the elements of the first to the second |
| Day25.UnionFind.constructor | rust/src/day25.rs:26-31 | every element starts as its own root with rank 0 |
| Day25.UnionFind.Find | rust/src/day25.rs:33-38 | the result is the element's root, the element now points straight at it, and no element's root changes |
| Day25.UnionFind.Union | rust/src/day25.rs:40-56 | both elements end with one root, the one of higher rank (the first on a tie), the two sets merge and nothing else moves |
| Day25.UnionFind.Hang | rust/src/day25.rs:48-55 | the lower root hangs under the higher, whose rank rises only on a tie |
| Day25.UnionFind.CountSets | rust/src/day25.rs:58-61 | the count is the number of distinct roots, and no root changes |
| Day25.LinkedSymmetric | rust/src/day25.rs:84-90 | being joined by a chain of close points is symmetric |
| Day25.LinkedTransitive | rust/src/day25.rs:84-90 | being joined by a chain of close points is transitive |
| Day25.SameConstellation | rust/src/day25.rs:84-90 | two points share a constellation exactly when a chain of close points joins them |
| Day25.CountConstellations | rust/src/day25.rs:58-61 | labels that partition the points as the constellations do have as many distinct values as there are constellations |
| Day25.Merged | rust/src/day25.rs:86-88 | a union of two close points keeps the labels sound and extends the joined pairs |
| Day25.LinkedAreJoined | rust/src/day25.rs:84-90 | after all pairs, points joined by a chain share a label |
| Day25.Connect | rust/src/day25.rs:86-88 | one union step keeps the root list sound and moves the pair loop on |
| Day25.Unite | rust/src/day25.rs:81-92 | the union-find loop counts the constellations |
| Day25.Part1 | rust/src/day25.rs:79-93 | the answer is the number of constellations of the parsed points, or none when parsing fails |

## Left out

Unbounded loops, bounded by a parameter. Each result says what happens when the bound runs out.
- Day01.Part2: the search for the first repeated frequency runs at most `fuel` passes; the source loops until a repeat, forever when there is none.
- Day01Script.FirstRepeat: the same `fuel` bound for `1/problem2.py`'s endless loop.
- Day07Loop.Part2: the worker schedule runs at most `fuel` seconds (also in `Day07Workers.Schedule`).
- Day10.Solve: the search for the first growing bounding box stops after `limit` seconds (also `Day10.Parts` and `Day10Script.Align`).
- Day13.Part1: the simulation runs at most `ticks` ticks (also `Day13.Part2` and `Day13.Simulate`).
- Day14.Part2: recipes are made for at most `rounds` rounds (also `Day14.Part2Corrected`).
- Day15V1.Part1: the battle runs at most `maxRounds` rounds; the same bound is on `Part1` and `Part2` of `Day15V1`, `Day15V2` and `Day15V3`, and on `Day15V3.Part1Corrected` and `Day15V3.Part2Corrected`.
- Day19.Part1: the program runs at most `fuel` steps (also `ElfCode.Run` and `Day19.RunProgram`).
- Day21.Part1: the program runs at most `fuel` steps (also `Day21.Part2` and `Day21.FindHaltingValues`).
- Day22.Part2: the search pops at most `fuel` states.
- Day24.Part2: boosts are tried from 1 up to `maxBoost`, where the source's `1..` never stops.

Integer widths. Integers are unbounded, so the model does not wrap or panic where the source's i32, i64 or usize arithmetic would overflow.
- Day01.Part1: frequency sums are i32 in the source.
- Day06.Part1: Manhattan distances and the distance totals of part 2 are i32.
- Day08.Part1: metadata sums and node values are i32 (also `Day08.Part2`). The sums of `8/problem2.py` are Python integers, which do not wrap.
- Day09.PlayGame: scores are usize.
- Day10.Solve: positions are i32 and bounding-box areas i64.
- Day12.Part2: pot sums and the extrapolation to fifty billion generations are i64.
- Day22.Erosion: the geologic index products are i32.
- Day23.Distance: coordinates and distances are i64.
- Day24.DamageCases: effective power and damage are i32.
- Day25.Distance: four-dimensional distances are i32.
- Machine.Apply: registers are i64 or usize in the source; `bani`/`borr` are modelled by two's complement on unbounded integers.

Text handling.
- Text.Trim: only the ASCII whitespace characters are trimmed; Rust's `trim` and Python's `strip` also trim other Unicode whitespace.
- Day05Stack.Upper: only ASCII letters change case (also `Day05Stack.Lower`). The scripts' `upper`/`lower` also change other letters, but those only meet the ASCII table `M` and the filter of `5/problem2_v2.py`.

Inputs the source crashes on, excluded by a `requires` instead of an error result.
- Day03Fabric.OverlapCount: claims must fit the 1000 by 1000 fabric (`Fits`; also `Day03Check.NonOverlapping` and the class methods); beyond it the scripts raise IndexError.
- Day05Stack.Reduce: every unit but the last must be a letter (`KeysBeforeLast`; also `Day05Stack.ReduceLine` and `Day05Stack.Lengths`); otherwise `M[stack[-1]]` raises KeyError.
- Day07Loop.Part2: every step must be at least 'A'; below it `step as u32 - 'A' as u32` underflows (rust/src/day07.rs:99).
- Day07.Part1: words must be non-empty (`WordsNonEmpty`, also `Day07.ParseInput`); Rust's `split_whitespace` never yields an empty word, so no input is lost.
- Day10.Solve: the input must hold at least one point; the source's `min().unwrap()` panics on none (rust/src/day10.rs:42-45).
- Day12.Part1: the first line must start with "initial state: " and every rule line must hold " => " (`InputOk`; also `Day12.Part2`, `Day12.ParseInput` and `Day12.ParseRules`); otherwise the source panics.
- Day12Script.Run: every rule's result text must be non-empty; `arr[1][0]` raises IndexError otherwise.
- Day16.Part1: every sample must have four registers before and after, and operands below 4 (`Usable`; also `Day16.Part2`); otherwise the source panics on the index.
- Day22.Part1: the depth is a `nat` (also `Day22.Part2` and `Day22.Cave`). With a negative depth, Rust's `%` can give a negative erosion level, which reaches `unreachable!`.
- Day24.SimulateCombat: groups must have positive hit points and non-negative units and damage (`WellFormed`; also `Day24.Part1` and `Day24.Part2`). With zero hit points the source divides by zero; with negative values the fight need not end.
- Day15V1.Floor: on a ragged map it returns false for a cell past the end of a shorter row. The source bounds-checks only against the first row's width and then indexes the row, so it panics there (rust/src/day15.rs:74-75, 137-139).
- Day18.Part1: an empty map, or a row shorter than the first, gives no answer where the source panics on the index (also `Day18.Part2`).

Results stated weaker than the source's promise.
- Day22.Part2: a returned time is proved to be a time at which the target can be reached holding the torch. That it is the shortest time, and that -1 means the target is unreachable, are not proved.
- Day23.Part2: the answer is proved to be the distance of a point that the recorded best count of bots reaches, or the initial i64::MAX. That this count is the largest, and the point the nearest, is not proved.
- Day24.SortDescSorted: the insertion sort is proved sorted and a permutation. That it keeps equal keys in input order, as Rust's stable `sort_by` does, holds by construction but is not stated.
- Day16.Part2: each pass fixes some opcode number with a single candidate. The source takes the first one in its HashMap's iteration order, which is unspecified.
- Day13.Tick: carts are ordered by a stable insertion sort, standing in for the library's `sort_by_key`.
- Day17.Pour: the proved closure (running water above maxY stands on clay or water, resting water is held below and on both sides, every wet square is reached from the spring) holds for more than one arrangement of water. It is not proved that the wet squares are exactly those the puzzle's rules describe.
- Day17.Part1: counts the wet squares of a grid left as `Day17.Pour` describes, so its answer is pinned down only as far as that closure goes.
- Day17.Part2: the resting squares are proved held and walled in by clay; it is not proved that every square that the puzzle's rules would fill with resting water rests.
- Day17.Grid.Spread: each spread is proved maximal at the moment it runs. A later stream can make a floor beside a row that already stopped at a drop; the source does not revisit that row, so no "spread as far as the floor reaches" property of the final grid is claimed.
- Day17.Grid.Spill: the right edge is re-checked after the left stream has run, as the source does; which of the two streams wets a shared square is not stated.

Parsers not modelled. These operations take the parsed values.
- Day04Guards.BuildEvents: records carry their timestamp as an epoch number and a minute, in place of `strptime`/`mktime` on the date text; malformed dates and time zones are not modelled.
- Day06.Part1: takes the points; `parse_input` (rust/src/day06.rs:23-35) is not modelled (also `Day06.Part2` and `Day06Script`).
- Day03Fabric.OverlapCount: takes the claims; the regular-expression match and `int` conversions of `3/problem1.py` (lines 37-41 and 94) are not modelled (also `Day03Check.NonOverlapping` and the same code in `3/problem2.py`).
- Day08.Part1: takes the numbers; `parse_input` (rust/src/day08.rs:54-60: trim, split on whitespace, parse) is not modelled (also `Day08.Part2`). `Day08Tree.Run` likewise takes the integer tokens, not the `split` and `int` of `8/problem2.py`.
- Day09.PlayGame: takes the player count and last marble; `parse_input` (rust/src/day09.rs:4-9) is not modelled (also `Day09Circle.RunGame`).
- Day10.Solve: takes the points; `parse_input` (rust/src/day10.rs:24-39) is not modelled.
- Day10Script.Align: takes the positions and velocities. The regular-expression parse, `print_area` and the final display loop of `python/10/problem1.py` are not modelled.
- Day14.Part1: takes n as a number, not the text that `input.trim().parse()` reads (rust/src/day14.rs:24); `Day14.Part2` takes the pattern as digits, not the text whose bytes rust/src/day14.rs:34 converts.
- Day11.Part1: takes the serial number as an integer, and returns the coordinates rather than the "x,y" text (also `Day11.Part2`).
- Day12Script.Run: takes the rules already split at " => "; the `re.split` call is not modelled.
- Day16.Part1: takes the samples; `parse_input` (rust/src/day16.rs:21-70) is not modelled (also `Day16.Part2`).
- Day23.Part1: takes the nanobots; `parse_input` (rust/src/day23.rs:23-41) is not modelled (also `Day23.Part2`).

Sample answers from the source's tests that are not proved. Evaluating a whole run on the sample input in the verifier exceeds its resource limit.
- Day06.Part1: 17 (also `Day06.Part2`: 16).
- Day07.Part1: "CABDFE" (also `Day07Loop.Part2`: 15).
- Day09.PlayGame: 32, 8317, 146373, 2764, 54718 and 37305.
- Day10.Solve: 3 seconds and the message.
- Day11.Part1: "33,45" and "21,61" (also `Day11.Part2`: "90,269,16" and "232,251,12"). The power-level samples are proved.
- Day12.Part1: 325.
- Day13.Part1: "7,3" (rust/src/day13.rs:198-200), and `Day13.Part2`: "6,4" (rust/src/day13.rs:203-205).
- Day14.Part1: "5158916779", "0124515891", "9251071085" and "5941429882" (also `Day14.Part2`: 9, 5, 18 and 2018).
- Day15V3.Part1: 27730, 36334, 39514, 27755, 28944 and 18740; likewise `Day15V3.Part2`, and `Part1` and `Part2` of `Day15V1` and `Day15V2`.
- Day17.Part1: 57 (also `Day17.Part2`: 29).
- Day18.Part1: 1147.
- Day20.Part1: 10, 18, 23 and 31. Only "^WNE$" giving 3 is proved.
- Day22.Part1: 114 (also `Day22.Part2`: 45).
- Day23.Part2: 36. The part 1 sample is proved.
- Day24.Part1: 5216 (also `Day24.Part2`: 51).
- Day25.Part1: 2, 4, 3 and 8.

Output. Printing, timing and the `main` functions are not modelled. Where a script prints a value, the method returns it instead.

## Findings

| source | as written | input that shows it | evidently intended | confidence | as-written member | corrected member |
|---|---|---|---|---|---|---|
| rust/src/day15_v3.rs:208-272 | A round that meets a live unit with no enemy returns false before `retain` removes the units killed earlier in that round. `outcome` then adds their hit points of 0 or less, and part 2 still counts a dead elf as present (the same code is in rust/src/day15.rs and rust/src/day15_v2.rs). | Goblin, elf, goblin in a row, the elf with 2 hit points: the first goblin kills the elf, and the second goblin finds no enemy. The hit-point sum is 399 instead of 400, and part 2 counts 1 elf where none is alive. | The dead are removed whenever a round ends, so the outcome sums living units and part 2 sees every lost elf. | high, not executed | Day15Units.DeadUnitsCounted | Day15V3.Part1Corrected, Day15V3.Part2Corrected |
| rust/src/day14.rs:37-65 | Part 2 looks only for occurrences that end at a recipe just made. So an occurrence that ends within the two opening recipes 3 and 7 is never reported; "371" and "3710" at index 0 are still found. | The pattern "37", which occurs at index 0 (likewise "3" and "7"): part 2 never returns 0 for it. | The answer is the first index at which the pattern occurs, the opening recipes included. | high, not executed | Day14.OpeningOccurs | Day14.Part2Corrected |
| python/5/problem2.py:63-68 | The last unit is compared with the unit before it even when that unit was just dropped in a reacting pair, so the last unit can be dropped as well. | "aAa": the sweep drops "aA", then drops the final "a" against the dropped "A", and settles to "". | Only reacting pairs are removed, so "aAa" reduces to "a". | high, not executed | Day05Passes.LastUnitDropped | Day05Passes.SettledIsReduce |
