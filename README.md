# Advent of Code 2022, days 1–15, in Dafny

This project models fifteen puzzle solvers, `solutions/day1.py` to
`solutions/day15.py`. Each one reads a puzzle input as a list of lines,
parses it and computes the answers to the puzzle's two parts:

- day 1: calorie counting;
- day 2: rock–paper–scissors scoring;
- day 3: rucksack priorities;
- day 4: range containment and overlap;
- day 5: crate stacks moved by two crane models;
- day 6: the start-of-packet marker;
- day 7: directory sizes of a shell session;
- day 8: tree visibility and scenic scores;
- day 9: a rope's tail;
- day 10: the CPU signal trace;
- day 11: monkeys passing worry levels, with an optional residue-ring representation;
- day 12: Dijkstra's algorithm on a height map;
- day 13: distress-signal packet parsing and ordering;
- day 14: falling sand;
- day 15: sensor exclusion zones and the one uncovered beacon position.

Each `dayN.dfy` holds one module `DayN`. Four shared modules model the Python
built-ins that the solvers rely on:

- `Wrappers`: `Option`, `Result` and `Outcome`, with the Python exception raised on the error path.
- `PyOps`: floor division and `%`, negative indexing, slicing and `sum`.
- `Text`: `str.strip`, `str.split` and `int` on decimal text.
- `Sorting`: a stable `sorted` with a key.

Three conventions run through the model:

- When a solver raises (an `IndexError`, a `KeyError`, a `ValueError`, …), the model returns `Err` with that exception.
- A pure computation is a function, and a lemma states what it means.
- A loop that builds a list or dictionary becomes a method with loop invariants. Its contract ties its result to that function.

Classes whose fields the source updates in place stay classes:

- `Monkey` (day 11);
- `MountainGraph` (day 12);
- `Cave` (day 14).

Reading files, printing, and the module-level driver code are not modelled. Each solver receives the value its driver code would pass it:

- days 1 and 2: the lines of `handle.readlines()`, each still ending in its newline (the last one may not);
- day 6: the text of `open(...).read().strip()`;
- days 3, 4, 5, 7, 8, 9, 10, 12, 14 and 15: the lines of `open(...).read().split("\n")`;
- day 11: monkeys already built (the parsing of the `"\n\n"`-separated descriptions is left out);
- day 13: one packet's text (the loading of the `"\n\n"`-separated pairs is left out).

## Model

| member | source | states |
|---|---|---|
| PyOps.FloorDiv | solutions/day11.py:71 | `//` rounds toward minus infinity: the quotient is the largest q with b*q <= a, for either sign of the divisor |
| PyOps.PyMod | solutions/day11.py:17-18 | `%` takes the sign of the divisor and satisfies a == b*(a//b) + a%b |
| PyOps.PyIndex | solutions/day1.py:20 | Python indexing: defined exactly for -len <= i < len, and negative indices count from the end |
| PyOps.SumAppend | solutions/day1.py:20 | `sum` of a concatenation is the sum of the parts |
| PyOps.TakeDrop | solutions/day5.py:24-25 | `s[:n] + s[n:] == s` for every n, negative n included |
| Text.CharSet | solutions/day3.py:16 | `set(s)` holds exactly the characters that occur in s |
| Text.StripEmpty | solutions/day1.py:9 | `line.strip() == ""` holds exactly when the line is all whitespace |
| Text.Words | solutions/day10.py:7 | `str.split()` gives non-empty words with no whitespace in them, and no words exactly when the text is all whitespace |
| Text.TakeWord | solutions/day10.py:7 | a word is a run of non-space characters, ended by a space or by the end of the text |
| Text.SplitOn | solutions/day4.py:6 | `str.split(sep)` gives at least one part; the parts joined with `sep` give back the text; no part contains `sep`; there is one part exactly when `sep` does not occur, and otherwise the first part ends at the first occurrence |
| Text.Find | solutions/day4.py:6 | the reported position is the first occurrence of the separator; no position is reported exactly when it occurs nowhere |
| Text.DigitsRoundTrip | solutions/day1.py:13 | the decimal text of n has the value n |
| Text.ParseDigits | solutions/day1.py:13 | `int(str(n)) == n` for every natural n |
| Sorting.SortBy | solutions/day15.py:17 | `sorted(key=...)` returns a permutation of its input |
| Sorting.SortBySorted | solutions/day15.py:17 | the result of `sorted` is ordered by the key |
| Sorting.SortSorted | solutions/day15.py:17 | sorting input that is already ordered changes nothing (stability) |
| Sorting.InsertBySorted | solutions/day1.py:20 | insertion keeps a key-ordered list ordered |
| Sorting.InsertBy | solutions/day1.py:20 | insertion adds exactly the one element |
| Day1.LoadElfData | solutions/day1.py:4-14 | the line loop gives the elves that the grouping function defines, and fails with `ValueError` on the same input |
| Day1.GroupingMeaning | solutions/day1.py:8-14 | the grouped numbers, read in order, are all the numbers in the input; there are as many closed groups as blank lines |
| Day1.GroupingGroups | solutions/day1.py:8-14 | group k holds exactly the numbers of the lines between the (k-1)-th and the k-th blank line, and the pending group holds those after the last blank line |
| Day1.UnclosedGroupDropped | solutions/day1.py:8-14 | numbers after the last blank line are dropped: they never reach the result |
| Day1.GroupingFailsOnward | solutions/day1.py:13 | a line that does not parse fails the whole load |
| Day1.StepMeaning | solutions/day1.py:9-13 | a blank line appends the current group to the elves and starts an empty one; any other line appends its one number to the current group |
| Day1.MaxCalElfMeaning | solutions/day1.py:17-20 | an error exactly when there are no elves; otherwise the result is the largest calorie total of some elf |
| Day2.WinDIsTheRule | solutions/day2.py:14 | `WIN_D` lists exactly the pairs in which rock beats scissors, scissors beat paper and paper beats rock |
| Day2.RoundScore | solutions/day2.py:17-19 | an error exactly for an empty round (`IndexError`) or an unknown letter (`KeyError`) |
| Day2.RoundScoreMeaning | solutions/day2.py:17-19 | a round scores the shape plus 6 for a win, 3 for a draw and 0 for a loss, between 1 and 9 |
| Day2.TotalScore | solutions/day2.py:22-24 | the total fails exactly when some round fails |
| Day2.TotalScoreBounds | solutions/day2.py:22-24 | a total lies between one and nine points per round |
| Day2.Guide | solutions/day2.py:4-9 | the strategy guide is the input lines, stripped, in order |
| Day2.LoseIsInverseOfWin | solutions/day2.py:28-29 | the part-two losing map is the inverse of the winning map |
| Day2.AlterRound | solutions/day2.py:33-35 | the last letter chooses an entry of `ACTION_D`, and the first letter then looks up the move to play; an error exactly when a lookup fails |
| Day2.AlterRoundReachesDemand | solutions/day2.py:28-35 | the altered round reaches the demanded outcome: X loses, Y draws and Z wins |
| Day2.AlterAll | solutions/day2.py:38-40 | each round is altered on its own; the whole alteration fails exactly when one round does |
| Day2.MyTotalPt2Defined | solutions/day2.py:38-40 | on well-formed rounds the part-two total is defined and between 1 and 9 per round |
| Day3.Lower | solutions/day3.py:10 | `lower()` maps an ASCII capital to its small letter and leaves every other character unchanged |
| Day3.PriorityRanges | solutions/day3.py:9-10 | a–z have priorities 1–26 and A–Z have priorities 27–52 |
| Day3.PriorityInjective | solutions/day3.py:9-10 | two different letters never share a priority |
| Day3.Halves | solutions/day3.py:16 | the two compartments split the rucksack at `len // 2` and together make up the whole line |
| Day3.SharedItems | solutions/day3.py:16 | an item is shared exactly when it is in both compartments |
| Day3.Pick | solutions/day3.py:16 | `next(iter(s))` raises `StopIteration` on the empty set and otherwise yields a member |
| Day3.SumResults | solutions/day3.py:16-17 | the sum fails exactly when some term fails |
| Day3.Part1Meaning | solutions/day3.py:13-17 | when every rucksack shares exactly one item, part 1 is the sum of those items' priorities |
| Day3.LeaveGenerator | solutions/day3.py:16-17 | a `StopIteration` escaping the generator passed to `sum` becomes `RuntimeError`; any other result passes through |
| Day3.Part1Stops | solutions/day3.py:13-17 | a rucksack whose compartments share nothing makes part 1 raise `RuntimeError` |
| Day3.Part1TrailingNewline | solutions/day3.py:6-17 | input that ends in a newline gives an empty last line, whose halves share nothing, so part 1 raises `RuntimeError` |
| Day3.Groups | solutions/day3.py:22 | lines are taken three at a time, and only the last group may be short |
| Day3.GroupsCover | solutions/day3.py:22 | the groups, read in order, are exactly the lines |
| Day3.CommonItems | solutions/day3.py:24 | an item is common exactly when every elf of the group carries it |
| Day3.Part2Meaning | solutions/day3.py:20-25 | when every group has exactly one badge, part 2 is the sum of the badges' priorities |
| Day3.Part2Stops | solutions/day3.py:20-25 | a group with no common item makes part 2 raise `RuntimeError` |
| Day4.IntsMeaning | solutions/day4.py:6 | every parsed field is `int` of its text |
| Day4.IntsFail | solutions/day4.py:6 | a field that is not an integer fails the line with `ValueError` |
| Day4.ParseLine | solutions/day4.py:6 | a line without a comma fails with `IndexError` |
| Day4.RangesMeaning | solutions/day4.py:4-6 | each entry of the loaded data is its line parsed |
| Day4.ParseRangePair | solutions/day4.py:6 | parsing the text `a-b,c-d` gives back `[a, b, c, d]` |
| Day4.IntsOfDigits | solutions/day4.py:6 | the decimal fields of a list of naturals parse back to that list |
| Day4.ContainsSymmetric | solutions/day4.py:11-12 | containment is tested in both directions, so swapping the two elves changes nothing |
| Day4.OverlapsIsIntersection | solutions/day4.py:17-19 | two well-formed ranges overlap exactly when they share a section |
| Day4.ContainsOverlaps | solutions/day4.py:9-19 | a pair in which one range contains the other also overlaps |
| Day4.Part1AtMostPart2 | solutions/day4.py:9-19 | on well-formed input, part 1's count never exceeds part 2's |
| Day5.Reverse | solutions/day5.py:16 | `s[::-1]` puts element i at position len-1-i |
| Day5.CraneOpMeaning | solutions/day5.py:15-16 | the crane lifts `min(amount, len)` crates from the top; model 9001 keeps their order and every other model reverses it |
| Day5.Position | solutions/day5.py:23-25 | a stack index is in range exactly when Python accepts it; negative indices count from the end |
| Day5.MoveMeaning | solutions/day5.py:23-25 | a move puts the lifted crates on top of the target, drops them from the source and leaves every other stack alone |
| Day5.MovePreservesCrates | solutions/day5.py:23-25 | a move between two different stacks neither creates nor destroys crates |
| Day5.MoveOntoItself | solutions/day5.py:23-25 | a move of at most the stack's height (`0 <= amount <= len`) from a stack onto itself leaves every stack as it was, since the target assignment is overwritten by the source assignment; a larger amount is not covered, and there the source loses crates (a move of 2 on `['A']` leaves `[]`) |
| Day5.RearrangeFailsOnward | solutions/day5.py:22-25 | an out-of-range stack index stops the whole rearrangement with `IndexError` |
| Day5.Tops | solutions/day5.py:26 | the answer is the top crate of each stack, and it fails exactly when a stack is empty |
| Day5.Restack | solutions/day5.py:19-26 | the method's moves give the tops of the stacks that the rearrangement function defines |
| Day5.EveryFourth | solutions/day5.py:10 | the crate letters are read every fourth character, starting at index 1 |
| Day5.Column | solutions/day5.py:11 | a stack collects a column's non-blank crates; a short row fails with `IndexError` |
| Day5.ColumnContents | solutions/day5.py:11 | the stack has one crate per non-blank cell of the column, in row order: the crate of row j sits after the crates of the rows above it |
| Day5.ColumnTop | solutions/day5.py:11 | the first row of the drawing gives the top of the stack |
| Day5.Stacks | solutions/day5.py:11 | there are nine stacks, each the column of its index |
| Day5.LoadData | solutions/day5.py:4-12 | a line starting with `move` adds a move; any other line holding a bracket adds a crate row |
| Day6.ItemSetSize | solutions/day6.py:9 | a window's set has as many elements as the window has characters exactly when they are pairwise distinct |
| Day6.WindowSizes | solutions/day6.py:9 | the windows start at 0 through len-5; the loop never looks at the last four-character window |
| Day6.FirstFour | solutions/day6.py:10 | the first window whose set has four elements |
| Day6.MarkerMeaning | solutions/day6.py:5-10 | the marker is 4 past the first all-distinct window; if none of the windows checked is all distinct, `IndexError` |
| Day7.PathStrLevelsUp | solutions/day7.py:12-13 | `path_str(n)` joins the path without its last n names |
| Day7.ChildKey | solutions/day7.py:12-13 | a child's key is its parent's key plus `/name`, and one level up gives the parent's key |
| Day7.Put | solutions/day7.py:29-32 | adding an object to the tree keeps its keys unique |
| Day7.CreateFileTree | solutions/day7.py:16-33 | the line loop yields the objects that the session function defines; `cd` to an unknown directory fails with `KeyError` |
| Day7.RunFailsOnward | solutions/day7.py:20-32 | a failed `cd` fails every longer session |
| Day7.CommandKeepsValid | solutions/day7.py:20-32 | every command keeps the working directory in the tree and every entry filed under its own key |
| Day7.RunValid | solutions/day7.py:16-33 | every session that succeeds leaves a consistent tree |
| Day7.AncestorKeysDistinct | solutions/day7.py:36-42 | a file's ancestors all have different keys, so a file is counted once per directory |
| Day7.TotalIsSizeUnder | solutions/day7.py:36-42 | the per-file accumulation is the total size of the files under the directory |
| Day7.SizesOfMeaning | solutions/day7.py:36-42 | the i-th size is the total size of the files under the i-th directory |
| Day7.AddFile | solutions/day7.py:38-40 | a file adds its size to each of its ancestor directories and to nothing else |
| Day7.DirectorySizes | solutions/day7.py:36-42 | the method returns each directory's total size, in tree order |
| Day7.GetDirectorySizesDfs | solutions/day7.py:36-42 | the directory sizes of a parsed session; a failed `cd` gives `KeyError` |
| Day7.SmallSumBounds | solutions/day7.py:62-67 | the sum of the sizes of at most 100000 is bounded by 100000 per directory |
| Day7.Part1 | solutions/day7.py:62-67 | part 1 sums the directory sizes of at most 100000 |
| Day7.LeastAtLeast | solutions/day7.py:70-79 | the smallest size at or above the target; there is none exactly when every size is below it |
| Day7.Choose | solutions/day7.py:70-79 | the directory to delete is the smallest one whose size reaches `30000000 + max - 70000000`; an empty size list raises `ValueError` |
| Day7.Part2 | solutions/day7.py:70-79 | part 2 is that choice made on the session's directory sizes; a failed `cd` gives `KeyError` |
| Day8.GenerateLrMax | solutions/day8.py:5-14 | the two loops record, for each position, the running maximum seen from the left and from the right |
| Day8.LeftMaxMeaning | solutions/day8.py:5-14 | the left record holds the first tallest tree up to the position |
| Day8.RightMaxMeaning | solutions/day8.py:5-14 | the right record holds the last (rightmost) tallest tree from the position to the end |
| Day8.VisibleMeaning | solutions/day8.py:17-25 | a tree is visible in a line exactly when every tree before it, or every tree after it, is shorter |
| Day8.EdgesVisible | solutions/day8.py:17-25 | both ends of a line are visible |
| Day8.VisibleUpTo | solutions/day8.py:17-25 | the visible positions are listed in increasing order |
| Day8.ColumnsShape | solutions/day8.py:28-35 | the transposed grid has entry [j][i] == rows[i][j] |
| Day8.GetVisibleTreePositions | solutions/day8.py:28-35 | a position is marked exactly when it is visible along its row or along its column |
| Day8.Blocking | solutions/day8.py:43-44 | the list holds, in increasing order, every tree at least as tall as the given height |
| Day8.ViewBackwardMeaning | solutions/day8.py:43-45 | the view distance stops at the first tree at least as tall or at the edge, and every tree it passes is shorter |
| Day8.ViewForwardMeaning | solutions/day8.py:44-46 | the same, looking forward |
| Day8.GenerateViewDistances | solutions/day8.py:38-47 | the loop computes, for every interior tree, the view distances that the view functions define |
| Day8.ScoreCell | solutions/day8.py:64-74 | the scenic score multiplies four view distances; row and column distances are cached per line |
| Day8.GetMaxScenicScore | solutions/day8.py:58-75 | on a square grid the result is the largest scenic score of any tree, and that score is attained; any other grid fails with `IndexError` |
| Day8.MaxScoreMeaning | solutions/day8.py:58-75 | the maximum of the collected scores is attained and bounds every tree's score |
| Day9.Signum | solutions/day9.py:9-10 | the sign function: -1, 0 or 1, with the sign of its argument |
| Day9.CoordsTouching | solutions/day9.py:13-14 | head and tail touch when they are at most one step apart on each axis |
| Day9.UpdateCoords | solutions/day9.py:17-23 | the head moves by the step; a touching tail stays; otherwise the tail takes one king's step toward the head |
| Day9.StepKeepsTouching | solutions/day9.py:17-23 | after a unit step, head and tail touch again |
| Day9.TraceTouching | solutions/day9.py:26-48 | a rope that starts touching still touches after any sequence of unit moves |
| Day9.TailStepsAreUnits | solutions/day9.py:17-23 | the tail moves by at most one king's step per move |
| Day9.MotionMoves | solutions/day9.py:32-47 | a motion line expands into unit steps in its direction; a bad count fails with `ValueError` |
| Day9.AllMovesFailsOnward | solutions/day9.py:26-48 | a bad line fails the whole simulation |
| Day9.VisitCountsMeaning | solutions/day9.py:26-48 | the visit dictionary has a key exactly for each visited position, and each count is that position's number of visits |
| Day9.SimulateMotion | solutions/day9.py:26-48 | the loops produce the visit counts of the start position and of the whole tail trace |
| Day9.SimulationKeys | solutions/day9.py:26-48 | the positions visited are the origin and those on the tail trace |
| Day10.GetSignal | solutions/day10.py:4-12 | the loop builds the trace that the trace function defines, and fails with `ValueError` on the first bad operand |
| Day10.SignalShape | solutions/day10.py:4-12 | the trace starts [1, 1], holds two entries per cycle, and ends at 1 plus every `addx` operand |
| Day10.SignalOnlyChangesAtCycleEnd | solutions/day10.py:8-11 | the register changes only between cycles: each cycle starts with the value the previous cycle ended with |
| Day10.CycleRange | solutions/day10.py:16 | the `range` visits exactly the sampled cycles `start + k*step` |
| Day10.Strength | solutions/day10.py:16 | the strength fails exactly when some sampled index is outside the trace |
| Day10.StrengthOfSampledCycles | solutions/day10.py:15-16 | when the last sampled cycle is inside the trace, the strength is the sum of `c * signal[2c]` over the sampled cycles |
| Day11.ModuliIx | solutions/day11.py:14 | the index map sends every modulus to one of its positions |
| Day11.MapZToRing | solutions/day11.py:17-18 | an integer becomes the list of its residues; a zero modulus fails with `ZeroDivisionError` |
| Day11.RingOp | solutions/day11.py:20-24 | ring addition and multiplication act residue by residue, each modulo its own modulus |
| Day11.HomomorphismAdd | solutions/day11.py:20-21 | mapping a sum into the ring gives the ring sum of the mapped terms |
| Day11.HomomorphismMult | solutions/day11.py:23-24 | mapping a product into the ring gives the ring product of the mapped factors |
| Day11.DividesIff | solutions/day11.py:59 | a residue of zero means divisibility |
| Day11.ApplyOp | solutions/day11.py:48-54 | the operator dictionary's `+` and `*` act on plain integers; any other operator is a `KeyError` |
| Day11.Inspected | solutions/day11.py:69-71 | a plain worry level is divided by 3 after the operation; a ring element is not divided |
| Day11.RingTracksPlain | solutions/day11.py:48-55 | in the ring, the new worry level is the residue of the plain one before division |
| Day11.ConstantOperandRaises | solutions/day11.py:53-54 | as written, a constant operand stays a string and the inspection raises `TypeError` |
| Day11.ConstantOperandCorrected | solutions/day11.py:53-54 | corrected, a constant operand is parsed as an integer before use |
| Day11.ConstantOperandExample | solutions/day11.py:53-54 | `new = old * 19` on worry 79 raises as written and gives 500 corrected |
| Day11.Monkey.constructor | solutions/day11.py:31-46 | a new monkey holds its starting items, has inspected nothing, and keeps its parameters |
| Day11.Monkey.Throw | solutions/day11.py:57-63 | in plain mode an item goes to the true monkey exactly when the modulus divides its worry level, and otherwise to the false monkey; a residue list raises `TypeError` and a zero modulus `ZeroDivisionError`; any target is one of the two monkeys |
| Day11.Monkey.ThrowRing | solutions/day11.py:57-63 | in ring mode the index `moduli_ix[modulus]` is looked up first, so an unknown modulus raises `KeyError` whatever the item; then a plain item raises `TypeError` and a residue list too short for that index `IndexError`; otherwise a zero residue at that index picks the true monkey |
| Day11.Monkey.ThrowAgrees | solutions/day11.py:57-63 | the ring test picks the same target as the plain test |
| Day11.Monkey.CatchItem | solutions/day11.py:65-66 | a caught item joins the end of the queue |
| Day11.Monkey.InspectAndThrow | solutions/day11.py:68-74 | the first item is removed, inspected and counted, and its target returned; an empty queue raises `IndexError` |
| Day11.ThrowStep | solutions/day11.py:68-74 | one throw pops the first item and fails with `IndexError` on an empty queue; a failing inspection or test stops it; a target outside the list raises `KeyError`; otherwise the item joins the end of the target's queue; the result always has one state per monkey |
| Day11.ThrowStepMoves | solutions/day11.py:68-74 | a successful throw moves the first item of monkey k, inspected, to the end of its target's queue, adds one to k's count and changes no other monkey |
| Day11.TurnMoves | solutions/day11.py:108-111 | a turn that does not fail moves items without creating or losing any, adds one inspection per throw, and when it completes leaves the monkey's queue empty |
| Day11.TurnsMove | solutions/day11.py:107-111 | the turns of a round keep the total of held items and add one inspection per throw |
| Day11.RoundsMove | solutions/day11.py:105-113 | any number of rounds keeps the total of held items, adds one inspection per throw and never lowers a count |
| Day11.MovedChain | solutions/day11.py:105-113 | two runs that each keep the item total and add their throws compose into one that adds both |
| Day11.RoundsStopped | solutions/day11.py:105-113 | once a round stops early, later rounds change nothing |
| Day11.ThrowOne | solutions/day11.py:110-112 | the method changes the monkeys exactly as one throw step says and returns its result |
| Day11.ThrowAll | solutions/day11.py:108-111 | the method's throws change the monkeys exactly as the turn function says |
| Day11.OneRound | solutions/day11.py:107-111 | one pass over the monkeys changes them exactly as one round of turns says |
| Day11.SimulateMonkeyRounds | solutions/day11.py:105-113 | the monkeys end in the state the round function gives for `max(num_rounds, 0)` rounds; a run that does not fail keeps the number of items |
| Day11.MonkeyBusiness | solutions/day11.py:116-120 | no monkeys raises `TypeError` (`reduce` on an empty list); with one monkey, the result is its count |
| Day11.TwoLargest | solutions/day11.py:116-120 | with two or more monkeys, the answer is the product of the two largest inspection counts |
| Day11.GetMonkeyBusiness | solutions/day11.py:116-120 | the answer is the monkey business of the counts in the state the round function gives; a failure or running out of throws is that of the rounds |
| Day12.HeightOf | solutions/day12.py:17-25 | `S` has height a, `E` has height z, and other letters have their own height, from 0 to 25 |
| Day12.ScanGrid | solutions/day12.py:15-25 | every letter cell becomes a node with its height; the last `S` and the last `E` are the start and the end |
| Day12.MinIndex | solutions/day12.py:61 | the popped entry has the smallest distance in the queue |
| Day12.MountainGraph.constructor | solutions/day12.py:10-28 | the graph holds each letter cell's height, the grid size, and distance 0 at the start |
| Day12.MountainGraph.UpdateDist | solutions/day12.py:30-31 | sets one node's distance and changes nothing else |
| Day12.MountainGraph.UpdateStartNode | solutions/day12.py:33-36 | a new start node resets the distances to just that node at 0 |
| Day12.MountainGraph.Candidates | solutions/day12.py:38-52 | the candidates are the four grid neighbours that lie inside the grid |
| Day12.MountainGraph.KeepSteps | solutions/day12.py:41-51 | a step is kept exactly when it climbs at most one unit; a missing node raises `KeyError` |
| Day12.MountainGraph.Neighbors | solutions/day12.py:38-52 | the neighbours are the in-grid cells one step away that climb at most one unit |
| Day12.MountainGraph.StepAdjacent | solutions/day12.py:38-52 | every step moves one grid cell |
| Day12.MountainGraph.ExtendReach | solutions/day12.py:62-65 | a path extended by one step reaches one node further |
| Day12.MountainGraph.RelaxedBound | solutions/day12.py:55-66 | once every node is relaxed, no path is shorter than the recorded distance |
| Day12.RelaxOne | solutions/day12.py:63-65 | relaxing one neighbour lowers its distance to at most d+1 and keeps the queue sound |
| Day12.DijkstraClimb | solutions/day12.py:55-66 | every recorded distance is the length of a real climb, and no climb is shorter |
| Day12.ShortestMaxHeightClimb | solutions/day12.py:69-75 | the fewest steps from any height-0 cell to the end; `OverflowError` when none reaches it |
| Day12.NewMountain | solutions/day12.py:10-28 | an empty grid raises `IndexError` |
| Day13.ParsePacket | solutions/day13.py:7-28 | the character loop gives the packet that the scanner function defines |
| Day13.Step | solutions/day13.py:10-27 | digits accumulate into the pending number; `,` and `]` flush it |
| Day13.ParseRoundTrip | solutions/day13.py:7-28 | parsing a packet's text gives back the packet |
| Day13.ParseFlatExample | solutions/day13.py:69 | `[1,1,3,1,1]` parses to five integers |
| Day13.PacketRelation | solutions/day13.py:39-60 | the recursion gives the order that the comparison function defines |
| Day13.CompareSeqAntisymmetric | solutions/day13.py:39-60 | swapping the two packets flips the verdict |
| Day13.CompareSeqReflexive | solutions/day13.py:39-60 | a packet compared with itself is undecided |
| Day13.PrefixComesFirst | solutions/day13.py:56-59 | a proper prefix of a list comes first |
| Day13.PacketComparator | solutions/day13.py:63-65 | 1 for right order, -1 for wrong order, 0 for undecided |
| Day13.ComparatorAntisymmetric | solutions/day13.py:63-65 | the comparator changes sign when its arguments are swapped |
| Day14.ParsePath | solutions/day14.py:16-19 | a scan line parses to no points, or to a path of at least two points |
| Day14.ParseScansShape | solutions/day14.py:18-19 | a coordinate that does not parse fails with `ValueError` |
| Day14.PathCellsMeaning | solutions/day14.py:23-28 | a path's rock is exactly the union of its segments |
| Day14.DrawSegment | solutions/day14.py:23-28 | drawing a segment marks its cells `#` |
| Day14.DrawRocks | solutions/day14.py:15-28 | the drawn cave is exactly the rock of all paths; the recorded bounds cover every endpoint |
| Day14.Rest | solutions/day14.py:31-43 | a grain falls until it is blocked below, below-left and below-right, or reaches ymax+1 |
| Day14.Cave.constructor | solutions/day14.py:9-28 | the cave holds exactly the rock; the bounds are the extreme endpoint coordinates; no sand yet |
| Day14.Cave.SandDrop | solutions/day14.py:30-48 | a placed grain rests where it falls; running off into the void places nothing; an empty cave raises `TypeError` |
| Day14.Cave.FillWithSandVoid | solutions/day14.py:50-56 | the cells and bounds are those the counted grains make, one drop each; filling ends only when the next grain would fall into the void; while the source is open, each counted grain is one more sand cell |
| Day14.Cave.FillWithSandFloor | solutions/day14.py:58-60 | the cells and bounds are those the counted grains make, one drop each; each grain is one more sand cell; filling ends only when the source is covered |
| Day14.DropFillsAir | solutions/day14.py:30-48 | while the source is open, a grain that is kept lands on air and adds one sand cell |
| Day14.SourceStaysCovered | solutions/day14.py:30-48 | once the source holds something, no drop opens it again |
| Day14.VoidSourceCovered | solutions/day14.py:30-56 | without a floor, a sand-covered, blocked source above the lowest rock makes every drop count a grain while the cave stays the same |
| Day14.FloorDropFillsAir | solutions/day14.py:30-48 | with a floor, every drop onto an open source places a grain on open air |
| Day14.NewCave | solutions/day14.py:9-28 | scans that do not parse raise `ValueError`; otherwise the new cave holds exactly their rock |
| Day15.L1Dist | solutions/day15.py:10-11 | the Manhattan distance is zero only between equal points |
| Day15.L1Symmetric | solutions/day15.py:10-11 | the distance is symmetric |
| Day15.L1Triangle | solutions/day15.py:10-11 | the distance obeys the triangle inequality |
| Day15.MergeSorted | solutions/day15.py:18-24 | merging covers the same integers as its input; well-formed input gives disjoint, non-adjacent, ordered intervals |
| Day15.SortedIntervals | solutions/day15.py:17 | sorting by lower bound keeps the coverage |
| Day15.IntervalUnion | solutions/day15.py:14-24 | the union covers the same integers; on well-formed input it is canonical; on canonical input it changes nothing |
| Day15.CanonicalLength | solutions/day15.py:61-67 | the lengths of canonical intervals add up to the number of integers they cover |
| Day15.RowCoverageMembers | solutions/day15.py:61-67 | a row position is covered exactly when some sensor's diamond reaches it |
| Day15.CountImpossibleBeaconCoords | solutions/day15.py:61-67 | the count is the covered positions of the row, minus the beacons on it |
| Day15.BuildSensorGrid | solutions/day15.py:45-54 | the grid keeps each sensor with the radius of its last reading, and each beacon under its row |
| Day15.SensorsOfLastWins | solutions/day15.py:53 | a sensor read twice keeps the later radius |
| Day15.BuiltGridCoversBeacons | solutions/day15.py:45-54 | when the sensors are distinct, every recorded beacon lies inside some sensor's diamond |
| Day15.ExclusionCountNonNegative | solutions/day15.py:61-67 | a row never has more beacons than covered positions |
| Day15.LineThrough | solutions/day15.py:28-31 | the line through two points contains both points |
| Day15.IntersectionPoint | solutions/day15.py:36-41 | no intersection exactly when the determinant is zero |
| Day15.IntersectionUnique | solutions/day15.py:36-41 | when the point shared by two crossing lines is integral, the intersection is that point |
| Day15.IntersectionExact | solutions/day15.py:36-41 | the floored point lies on both lines exactly when the determinant divides both numerators, so a non-integral crossing is returned as a point off a line |
| Day15.IntersectionRoundsDown | solutions/day15.py:36-41 | an instance: the lines x+y=1 and x-y=0 cross at (1/2, 1/2), and the point returned is (0, 0), which is off the first line |
| Day15.SensorBoundaryLines | solutions/day15.py:56-59 | four lines, each through two adjacent corners of the diamond at distance radius+1: top with right, top with left, bottom with right, bottom with left |
| Day15.BoundaryLinesThroughDiamond | solutions/day15.py:56-59 | each boundary line passes through two points at distance radius+1 |
| Day15.BoundaryOnLines | solutions/day15.py:56-59 | every point at distance radius+1 lies on one of the four boundary lines |
| Day15.ValidSensors | solutions/day15.py:70-74 | a sensor is kept exactly when one of x-r, x+r, y-r and y+r lies in 0..m; this is not the same as lying inside the search square |
| Day15.CrossingPoints | solutions/day15.py:76-82 | the candidates are exactly the in-range crossings of two boundary lines |
| Day15.SignalTuningFrequency | solutions/day15.py:69-86 | `TypeError` exactly when no sensor passes that test (`reduce` on an empty list); otherwise the frequency of an uncovered candidate, or 0 when there is none |

## Left out

- File reading, `print`, and the module-level driver code that calls the solvers. Every solver receives its lines as a parameter.
- Non-ASCII text. `str.isdigit`, `str.islower`, `str.isupper` and `str.lower` are modelled on ASCII only, and `int()` accepts ASCII digits only.
- Text.ParseInt: Python's `int()` also accepts `_` between digits (`int("1_000") == 1000`). The model rejects such text with `ValueError`.
- Set iteration order is not specified by the language. Three places depend on it:
  - Day3.Pick: `next(iter(...))` at solutions/day3.py:16 and :24 is modelled as some member of a non-empty set, not a particular one;
  - Day15.SensorBoundaryLines: the four lines of solutions/day15.py:59 come in the order CPython gives for `{-1, 1}`, which is 1 first;
  - Day15.SignalTuningFrequency: the returned candidate at solutions/day15.py:83-86 is stated as one of the candidates, not the first in iteration order.
- Day2.LosePt2: `LOSE_D_PT2` (solutions/day2.py:29) is written as a literal map, with its inverse property proved separately, rather than built by inverting `WIN_D_PT2`.
- Day4.Ints: states the error kind and the length, but not when the error occurs. The error condition is stated field by field in Day4.IntsFail.
- Day6.WindowSizes: follows the source's `range(4, len(signal_string))`. The window that ends on the last character is never checked, so a marker that ends on the last character is not found.
- Day7 `bfs` (solutions/day7.py:45-59) and the `"bfs"` alternatives of `part1` and `part2` are not modelled. They compute the same sizes by a second traversal; only the depth-first variant is modelled.
- Day8.LeftMaxMeaning, Day8.RightMaxMeaning and Day8.VisibleMeaning: require every tree to compare above the source's sentinel height `"-1"`, as digits do.
- Day10 `draw_pixels` (solutions/day10.py:19-26) only prints and is not modelled.
- Day11 `initialize_monkey_state` (solutions/day11.py:77-102) parses the monkey descriptions. The model receives the monkeys already built; its `print` calls are left out.
- Day11.ApplyOp: mixing a plain integer with a ring element raises `TypeError` in the model. The source would fail inside `RingProduct` methods in a way that is not modelled in detail.
- Day11.SimulateMonkeyRounds and Day11.GetMonkeyBusiness: require the monkeys to be distinct objects, since one object listed twice would be one monkey with two turns. They take a `fuel` bound on the number of throws; running out is reported as an outcome of its own.
- Day11.Inspected: follows the corrected reading of a constant operand (see Findings) in both modes. In ring mode the constant is first mapped to its residues.
- Day12: the `PriorityQueue` is modelled as a sequence of (distance, node) entries popped at the minimum. The `queue.PriorityQueue` ordering of equal entries and its thread safety are not modelled.
- Day12.DijkstraClimb and Day12.ShortestMaxHeightClimb: take a `fuel` bound on the number of pops; running out is its own outcome.
- Day12.DijkstraClimb: without a new start node, it requires the graph's distances to be consistent. That is how `__init__` and `update_start_node` leave them.
- Day13 `load_packets` (solutions/day13.py:31-36) reads a file and is not modelled. Part 2, which sorts with `functools.cmp_to_key`, is left out too.
- Day14.Cave.SandDrop, Day14.Cave.FillWithSandVoid and Day14.Cave.FillWithSandFloor: require `ymax` to be at least -1. Scans with negative y coordinates parse (`int("-3")`), and for such a cave, say `498,-3 -> 500,-3` with `ymax == -3`, the fall loop of solutions/day14.py:33-43 starts at row 0, already below `ymax + 1`, and never ends. That non-terminating case is not modelled.
- Day14.Cave.FillWithSandVoid: once sand covers the source above the lowest rock, every drop again places `o` on the source and adds one to `sand_grains`, so the loop of solutions/day14.py:52-56 never sees two equal counts and never ends (Day14.VoidSourceCovered). The model then runs out of fuel. In that state the count no longer matches the number of sand cells, so the sand-count clause is stated only while the source is open.
- Day14.Cave.FillWithSandVoid and Day14.Cave.FillWithSandFloor: take a `fuel` bound on the number of grains; running out is its own outcome.
- Day14 `__repr__` (solutions/day14.py:62-67) only renders the cave as text and is not modelled.
- Day15: sensor records are taken as already parsed observations. The regular expressions of solutions/day15.py:49-50 are not modelled.
- Day15.IntervalUnion: is stated to give a canonical result only for well-formed intervals (lo <= hi). For other input, only coverage and length are stated.

## Findings

| source | as written | input that shows it | evidently intended | confidence | as-written member | corrected member |
|---|---|---|---|---|---|---|
| solutions/day11.py:53-54 | a constant operand such as `19` in `new = old * 19` stays a string, so `item + "6"` raises `TypeError` and `item * "19"` builds a repeated string that `// 3` then rejects | `new = old * 19` with worry level 79 | the operand parsed as an integer, giving (79 * 19) // 3 = 500 | not executed | Day11.ConstantOperandRaises | Day11.ConstantOperandCorrected |
