# Advent of Code 2025 solutions, modelled in Dafny

This project models the Rust solutions of eleven of the twelve Advent of Code
2025 puzzles (days 1 to 7 and 9 to 12) together with the small `mygrid`
library they share, and proves what each solution computes. Day 8 is not
modelled; "Left out" says why.

- **Day 7, tachyon manifold** (`beam_splitter.dfy`, `beam_splitter_example.dfy`).
  A beam enters at `S` and is split by every `^`. The solution keeps one count
  per column and routes it line by line. The model keeps the two arrays and the
  routing loop. It proves that the split count is the number of occupied
  splitters, that one line changes the number of timelines by the count
  standing on splitters (less what leaves the field), and that the puzzle
  example gives 21 and 40.
- **Day 11, reactor** (`reactor.dfy`). Device names are packed into 15-bit ids.
  Kahn's algorithm orders the devices, and paths are counted along that order.
  The model proves the name/id round trip and that the order is topological on
  an acyclic graph. It proves that the count is the number of paths, and that
  part two multiplies the three legs in the one order between `dac` and `fft`
  that has paths.
- **Day 5, ingredient ranges** (`id_ranges.dfy`). Inclusive id ranges are parsed
  and merged into a sorted, disjoint set. Membership and the number of ids
  covered are both kept across the merge.
- **Day 3, joltage digits** (`digit_picker.dfy`). This is the greedy choice of
  `k` digits that spells the largest number. The greedy result is proved to be
  at least as large as every other choice.
- **Day 1, dial** (`dial.dfy`). This models the rotations of a 100-position dial:
  landing on zero in part one, and passing zero in part two.
- **Day 2, repeated ids** (`repeated_ids.dfy`). Numbers whose digits are a block
  repeated are found by arithmetic on powers of ten, not by string search.
- **Day 6, worksheet** (`worksheet.dfy`). Columns of numbers are folded with
  `+` or `*`. Part one reads the numbers by rows and part two by columns.
- **Day 4, paper rolls** (`paper_rolls.dfy`). Rolls with fewer than four
  neighbouring rolls are accessible. Part two removes them repeatedly, in place
  on the grid.
- **Day 10, factory** (`factory.dfy`). Light patterns and buttons are encoded as
  bit masks. A breadth-first search finds the fewest presses. Part two's parsers
  are also modelled.
- **Day 9, movie theater tiles** (`tiles.dfy`). These are the brute-force
  largest rectangles, without and with the polygon constraint.
- **Day 12, regions** (`regions.dfy`). A region counts when its area holds
  every present as a full 3×3 block.
- **`mygrid`** (`points.dfy`, `directions.dfy`, `grid.dfy`). The library supplies
  points, directions and a row-major grid class.

`text.dfy` and `arith.dfy` hold the string and number helpers the models
share: `str::lines`, `split_once`, `split_whitespace` and unsigned and signed decimal
parsing.

Unsigned and signed Rust integers are modelled as unbounded `nat` and `int`.
The lines under "Left out" name where that matters.

## Model

| member | source | states |
|---|---|---|
| BeamSplitter.Next | src/bin/07.rs:16-32 | one line maps the count vector to a vector of the same width: each column receives what reaches it through a `.` above it and from the splitters beside it |
| BeamSplitter.InitialBeams | src/bin/07.rs:10-12 | the starting vector has one timeline at the `S` column and zero elsewhere, so it sums to one |
| BeamSplitter.Start | src/bin/07.rs:5-7 | the start column is the first `S` of the first line |
| BeamSplitter.RouteLine | src/bin/07.rs:16-32 | routing the occupied columns of one line into a zeroed second array fills it with exactly `Next` and returns the number of occupied splitters met |
| BeamSplitter.Clear | src/bin/07.rs:34 | `fill(0)` leaves every entry zero |
| BeamSplitter.Total | src/bin/07.rs:37 | the sum of the array |
| BeamSplitter.Solve | src/bin/07.rs:3-39 | on a well-formed field, the swap-and-clear loop returns the total splits over all lines and the sum of the last vector |
| BeamSplitter.PartOne | src/bin/07.rs:42-45 | the first answer, always `Some` |
| BeamSplitter.PartTwo | src/bin/07.rs:48-51 | the second answer, always `Some` |
| BeamSplitter.FlowsPrefix | src/bin/07.rs:14-35 | if every line of a field can be routed, so can every line of a prefix of it |
| BeamSplitter.SplitsCountOccupiedSplitters | src/bin/07.rs:18-25 | the split count is the size of the set of occupied splitter columns: one per splitter, whatever count stands on it |
| BeamSplitter.SplitsIgnoreCounts | src/bin/07.rs:16-25 | two vectors occupying the same columns meet the same number of splits |
| BeamSplitter.EmptyColumnIsInert | src/bin/07.rs:16 | the cell under an empty column changes neither the next vector nor the split count (the filter on `beam > 0`) |
| BeamSplitter.PassCarriesCount | src/bin/07.rs:27-29 | a `.` passes its whole count straight down, and with no splitter beside it that is all its column receives |
| BeamSplitter.NoSplitterRowIsIdentity | src/bin/07.rs:16-32 | a line without `^` leaves the vector unchanged and counts no split |
| BeamSplitter.OutflowSum | src/bin/07.rs:17-29 | what one column sends across all columns is its emitted amount: once through a `.`, once to each in-field side of a `^` |
| BeamSplitter.ReceivedIsEmitted | src/bin/07.rs:16-32 | the total received after routing some columns is the total they emitted, so no count is created or lost in routing |
| BeamSplitter.RowTotal | src/bin/07.rs:18-24 | one line adds the count standing on occupied splitters to the number of timelines, less what falls off the two edges |
| BeamSplitter.RowTotalInside | src/bin/07.rs:18-24 | with no occupied splitter at either edge, the timelines grow by exactly the count standing on splitters |
| BeamSplitter.RowTotalGrows | src/bin/07.rs:18-24 | on a field at least two columns wide, no line loses timelines |
| BeamSplitter.TimelinesNeverVanish | src/bin/07.rs:14-37 | on a field at least two columns wide, the final sum is at least the starting one |
| BeamSplitter.NoSplitterField | src/bin/07.rs:14-35 | lines made only of `.` can be routed, give no split and leave the vector unchanged |
| BeamSplitter.NoSplitterAnswers | src/bin/07.rs:3-39 | a field whose lines hold only `.` answers zero splits and one timeline |
| BeamSplitterExample.ExampleAnswers | src/bin/07.rs:58-67 | the puzzle example is well formed and answers 21 splits and 40 timelines |
| BeamSplitterExample.SingleSplit | src/bin/07.rs:18-25 | one splitter below the start gives one split and two timelines |
| BeamSplitterExample.Checked | src/bin/07.rs:16-32 | a column-by-column check of a line establishes that it can be routed and gives the stated next vector |
| BeamSplitterExample.RunComplete | src/bin/07.rs:14-35 | a checked run over all lines establishes the final vector and split total |
| Reactor.Hash | src/bin/11.rs:6-12 | a name of three lowercase letters packs into an id below `1 << 15`, with the first letter in the top five bits and the last in the bottom five |
| Reactor.HashIsBitPacking | src/bin/11.rs:9-11 | the shifts and bitwise or of `hash` equal the arithmetic packing, because the five-bit fields do not overlap |
| Reactor.NodeName | src/bin/11.rs:16-22 | an id unpacks to a three-character name |
| Reactor.NameRoundTrip | src/bin/11.rs:6-22 | unpacking the id of a name gives the name back |
| Reactor.IdRoundTrip | src/bin/11.rs:6-22 | an id whose three fields are letters is the id of its unpacked name |
| Reactor.ParseLine | src/bin/11.rs:29-34 | a parsed line has a colon, and its ids are all below `1 << 15` with three letter fields; any other line is `None` |
| Reactor.ParseLineRoundTrip | src/bin/11.rs:29-34 | a line written from an entry of letter ids, as `name: target target …`, reads back as that entry |
| Reactor.Entries | src/bin/11.rs:28-35 | one entry per input line, each the parse of that line |
| Reactor.Adjacency | src/bin/11.rs:25-35 | the adjacency table has `1 << 15` lists |
| Reactor.AdjacencyOfDistinct | src/bin/11.rs:33-34 | with one line per device, a device's list is its line's targets, and a device with no line has no outputs |
| Reactor.AdjacencyValid | src/bin/11.rs:34 | every id in the adjacency table is below `1 << 15` |
| Reactor.ParseInput | src/bin/11.rs:24-38 | returns the devices in line order and a fresh array holding the adjacency lists |
| Reactor.ParsedGraph | src/bin/11.rs:24-38 | a well-formed input gives distinct, in-range devices, and no id outside them has outputs |
| Reactor.InDegrees | src/bin/11.rs:42-47 | each entry is the number of edges into that id, with multiplicity |
| Reactor.Roots | src/bin/11.rs:49-53 | the initial queue holds exactly the devices of in-degree zero, in input order and without repeats |
| Reactor.TopologicalSort | src/bin/11.rs:40-68 | the output is distinct ids, each after all of its predecessors, and on an acyclic graph every device and target is output |
| Reactor.Release | src/bin/11.rs:59-64 | decrementing the targets' in-degrees and queueing those that reach zero keeps Kahn's invariant |
| Reactor.PredsDone | src/bin/11.rs:59-63 | an id whose in-degree has dropped to zero has every predecessor already output |
| Reactor.DistinctBound | src/bin/11.rs:56-65 | distinct ids below a bound are at most that many, which bounds the loop |
| Reactor.AllOutput | src/bin/11.rs:57-65 | on a ranked (acyclic) graph, every id Kahn's algorithm can reach ends in the output |
| Reactor.KahnIsTopo | src/bin/11.rs:40-68 | on an acyclic graph the sort is a topological order, and an id it leaves out has no outputs |
| Reactor.NoRoundTrip | src/bin/11.rs:99-102 | in an acyclic graph two distinct ids do not both have paths to each other, so the `unreachable!` arm is never reached |
| Reactor.MassStart | src/bin/11.rs:71-72 | with one way recorded at `start`, the weighted total is the number of paths from `start` |
| Reactor.MassMoveDone | src/bin/11.rs:74-77 | marking a device processed moves its ways onto the paths through its targets without changing the total |
| Reactor.MassFinal | src/bin/11.rs:79 | once every device holding ways is processed, the total is the ways recorded at `end` |
| Reactor.PushedMass | src/bin/11.rs:75-77 | pushing a device's ways to targets that are still to be processed keeps the total |
| Reactor.Spread | src/bin/11.rs:75-77 | the inner loop adds the device's current ways to each target in turn, in place |
| Reactor.WalkedMass | src/bin/11.rs:74-78 | walking the rest of a topological order leaves exactly the weighted total at `end` |
| Reactor.CountWays | src/bin/11.rs:70-80 | on a topological order of an acyclic graph the result is the number of paths from `start` to `end`; when `start` is not in the order only the empty path counts |
| Reactor.SortedGraph | src/bin/11.rs:84-86 | parsing then sorting gives the parsed adjacency and, on an acyclic graph, a topological order outside which no id has outputs |
| Reactor.PartOne | src/bin/11.rs:83-89 | on an acyclic graph, the number of paths from `you` to `out` |
| Reactor.PartTwo | src/bin/11.rs:92-104 | the product of the three legs taken in the one order between `dac` and `fft` that has paths |
| DigitPicker.Row | src/bin/03.rs:5-7 | a line becomes its digit values, one per character, each below ten |
| DigitPicker.StreamInput | src/bin/03.rs:3-9 | one digit row per input line, each as long as its line |
| DigitPicker.NumberBound | src/bin/03.rs:24 | `k` digits accumulated by `result * 10 + digit` spell a number below `10^k` |
| DigitPicker.NumberCons | src/bin/03.rs:24 | the leading digit weighs ten to the number of digits after it |
| DigitPicker.LeadDecides | src/bin/03.rs:18-24 | of two digit rows of one length, the one with the smaller leading digit spells the smaller number |
| DigitPicker.LeadTie | src/bin/03.rs:18-24 | behind equal leading digits, the rest of the row decides |
| DigitPicker.Pick | src/bin/03.rs:18-25 | the digits picked have one entry per chosen index |
| DigitPicker.Room | src/bin/03.rs:17 | an increasing choice of `n` indices below `hi` starts at most `n` before `hi`, which is why the window ends at `len - (N - n)` |
| DigitPicker.LeftmostMax | src/bin/03.rs:18-23 | the index found lies in the window `beg..=end` |
| DigitPicker.LeftmostMaxIsMax | src/bin/03.rs:18-23 | the digit found is the largest of the window, and every digit before it is smaller: `rev().max_by` keeps the leftmost maximum |
| DigitPicker.First | src/bin/03.rs:16-18 | the pick for `k` digits to go leaves room for the other `k - 1` |
| DigitPicker.Greedy | src/bin/03.rs:15-26 | the greedy choice has `k` indices, all inside the row |
| DigitPicker.GreedyIncreasing | src/bin/03.rs:16-25 | the greedy indices strictly increase, so the digits are taken in row order |
| DigitPicker.GreedyHead | src/bin/03.rs:18-23 | any choice starts at a digit no larger than the greedy first one, and a choice starting at an equal digit does not start before it |
| DigitPicker.LexLeNumber | src/bin/03.rs:24 | on digit rows of one length, lexicographic order is numeric order |
| DigitPicker.GreedyIsLexLargest | src/bin/03.rs:15-26 | no increasing choice of `k` digits comes lexicographically after the greedy one |
| DigitPicker.GreedyNumberSpells | src/bin/03.rs:15-28 | the number the loop accumulates is the number the greedy indices spell, behind what was already accumulated |
| DigitPicker.LargestIsMax | src/bin/03.rs:11-29 | the greedy number is spelled by an increasing choice of `k` digits, no such choice spells a larger one, and it is below `10^k` |
| DigitPicker.Solve | src/bin/03.rs:11-29 | the loop returns the largest number that `k` digits taken in row order can spell, below `10^k` |
| DigitPicker.Total | src/bin/03.rs:32 | the sum over the rows is at most the number of rows times the largest `k`-digit number |
| DigitPicker.Output | src/bin/03.rs:31-37 | on digit-only lines at least `k` long, the answer is `Some` and bounded as above |
| DigitPicker.PartOne | src/bin/03.rs:31-33 | the sum of the largest two-digit numbers, at most 99 per line |
| DigitPicker.PartTwo | src/bin/03.rs:35-37 | the sum of the largest twelve-digit numbers, at most `10^12 - 1` per line |
| IdRanges.Span | src/bin/05.rs:6 | a range covers exactly the ids from its start to its end, both included |
| IdRanges.ParseRange | src/bin/05.rs:8-11 | `start-end` parses to a range whose two ends fit in 64 bits, `None` where `split_once` or `parse::<u64>` would panic |
| IdRanges.ParseRangeRoundTrip | src/bin/05.rs:8-11 | the decimal text of any 64-bit range parses back to that range |
| IdRanges.Overlaps | src/bin/05.rs:13-15 | two non-empty ranges overlap exactly when they share an id (touching ends count); in general, unless one ends before the other starts |
| IdRanges.Merge | src/bin/05.rs:17-19 | the merge starts at the smaller start and ends at the larger end |
| IdRanges.Contains | src/bin/05.rs:21-23 | a non-empty range contains both of its ends, and only a non-empty range contains anything |
| IdRanges.IsLessThan | src/bin/05.rs:25-27 | between disjoint non-empty ranges, one comes first exactly when it ends before the other starts; a range never comes before one that starts earlier |
| IdRanges.MergeIsUnion | src/bin/05.rs:17-19 | merging two overlapping non-empty ranges covers exactly their union |
| IdRanges.Count | src/bin/05.rs:58 | the count of a range is the number of ids it covers |
| IdRanges.SpanSize | src/bin/05.rs:58 | a range covers `end - start + 1` ids, or none when inverted |
| IdRanges.CoveredIsAnyContains | src/bin/05.rs:21-23 | an id is covered by a sequence of ranges exactly when some range contains it |
| IdRanges.TotalCountIsCoveredSize | src/bin/05.rs:57-59 | on sorted, disjoint ranges the summed counts are the number of distinct ids covered |
| IdRanges.Position | src/bin/05.rs:39-42 | the index found is the first whose range overlaps the new one or starts after it; `None` means no range does |
| IdRanges.AbsorbSortedUnion | src/bin/05.rs:47-50 | absorbing the following overlapping ranges keeps the sequence sorted and disjoint and covers the same ids |
| IdRanges.InsertedSortedUnion | src/bin/05.rs:38-55 | `merge_with` keeps the ranges sorted and disjoint and adds exactly the ids of the new range |
| IdRanges.MergedAt | src/bin/05.rs:45-51 | the merging branch keeps the ranges sorted and disjoint and adds exactly the new ids |
| IdRanges.InsertedAt | src/bin/05.rs:52 | the inserting branch keeps the ranges sorted and disjoint and adds exactly the new ids |
| IdRanges.BridgeCollapses | src/bin/05.rs:45-50 | a range bridging two stored neighbours collapses them into one range from the smallest start to the largest end |
| IdRanges.RangeSet.constructor | src/bin/05.rs:34-36 | a new set holds no range |
| IdRanges.RangeSet.MergeWith | src/bin/05.rs:38-55 | the stored ranges become the merged sequence, still sorted and disjoint, covering the old ids plus the new range's |
| IdRanges.RangeSet.Len | src/bin/05.rs:57-59 | the summed lengths are the number of distinct ids the set covers |
| IdRanges.Collect | src/bin/05.rs:63-69 | the collected set is sorted and disjoint and covers the union of the input ranges |
| IdRanges.TakeNonEmpty | src/bin/05.rs:75-77 | the lines before the first empty line, none of them empty |
| IdRanges.ParseRanges | src/bin/05.rs:75-79 | every line parses to the range at its index, or some line fails and the result is `None` |
| IdRanges.ParseNumbers | src/bin/05.rs:81-83 | the non-empty lines after the blank line parse to 64-bit numbers |
| IdRanges.ParseInput | src/bin/05.rs:72-86 | the ranges are the lines before the first empty one, and the result is `None` where the source would panic |
| IdRanges.FreshCount | src/bin/05.rs:91-93 | the number of fresh ids is at most the number of ids listed |
| IdRanges.FreshCountByCovered | src/bin/05.rs:91-93 | a listed id is fresh exactly when it is one of the ids the ranges cover |
| IdRanges.PartOne | src/bin/05.rs:88-96 | `Some` exactly when the input parses, with the number of listed ids that some range contains |
| IdRanges.PartTwo | src/bin/05.rs:98-102 | `Some` exactly when the range lines parse, whatever follows the empty line, with the number of distinct ids the ranges cover |
| IdRanges.RangesOnly | src/bin/05.rs:72-79 | the ranges read up to the first empty line, present exactly when every one of those lines parses, one per line |
| IdRanges.RangesOnlyAgree | src/bin/05.rs:72-79 | when the whole input parses, part two reads the same ranges as part one |
| Dial.Rotation | src/bin/01.rs:6-9 | a line reads as a signed rotation, negative after `L`; an empty line, where the source would slice past the end, gives `None` |
| Dial.Stream | src/bin/01.rs:3-11 | `Some` exactly when every line reads as a rotation; the zero rotations are dropped, so none is left |
| Dial.ParseDecimal | src/bin/01.rs:8 | the decimal text of a natural number parses back to it |
| Dial.LineRoundTrip | src/bin/01.rs:6-9 | how a rotation is written (`L` or `R`, then the clicks) reads back as that rotation |
| Dial.StreamRoundTrip | src/bin/01.rs:3-11 | non-zero rotations written one per line read back as the same list |
| Arith.TruncRem | src/bin/01.rs:16-25 | Rust's signed `%`: the remainder takes the sign of the dividend, is smaller than the divisor in size, and is Euclid's remainder for non-negative operands |
| Arith.TruncDivRem | mygrid/src/point.rs:81-82 | Rust's signed `/` and `%` recompose the dividend |
| Dial.Turn | src/bin/01.rs:16-25 | the new position is on the dial, `0..100` |
| Dial.TurnIsModular | src/bin/01.rs:16-25 | the new position is the old one plus the rotation, modulo 100 |
| Dial.FoldOne | src/bin/01.rs:15-18 | part one's fold counts at most one zero per rotation |
| Dial.FoldOneCountsLandings | src/bin/01.rs:15-18 | part one's fold tracks the running total modulo 100 and counts exactly the rotations whose running total is a multiple of 100 |
| Dial.PartOne | src/bin/01.rs:14-20 | `Some` exactly when every line reads, with at most one count per line |
| Dial.PartOneIsLandings | src/bin/01.rs:14-20 | part one counts the rotations after which the dial, started at 50, points at 0 |
| Dial.FoldTwoAsWritten | src/bin/01.rs:24-28 | part two's fold as written, which never lowers the count |
| Dial.PartTwoAsWritten | src/bin/01.rs:23-30 | part two as written: `Some` exactly when every line reads |
| Dial.FoldTwo | src/bin/01.rs:24-28 | part two's fold with the pass test corrected, which never lowers the count |
| Dial.PartTwo | src/bin/01.rs:23-30 | part two with the pass test corrected: `Some` exactly when every line reads |
| Dial.ClicksRight | src/bin/01.rs:26-27 | turning right `m` clicks from `c` stops on 0 `(c + m) / 100` times and ends at `(c + m) % 100` |
| Dial.ClicksLeft | src/bin/01.rs:26-27 | turning left is turning right on the mirrored dial |
| Dial.HitsRight | src/bin/01.rs:25-27 | for a right turn, the corrected count is the number of clicks that stop on 0, and the new position is where the clicks end |
| Dial.HitsLeft | src/bin/01.rs:25-27 | the same for a left turn |
| Dial.HitsAreClicks | src/bin/01.rs:25-27 | for any rotation, the corrected count is the clicks that stop on 0, and the position is where they end |
| Dial.AsWrittenDiffers | src/bin/01.rs:26-27 | the source's count exceeds the clicks on 0 by one exactly when the dial stands on 0 and the rotation is a whole number of turns |
| Dial.FoldTwoCountsClicks | src/bin/01.rs:24-28 | the corrected fold counts every click, over all rotations, that stops on 0 |
| Dial.PartTwoIsSweep | src/bin/01.rs:23-30 | corrected part two is the number of clicks from 50 that stop on 0 |
| Dial.LandingIsHit | src/bin/01.rs:26 | a non-zero rotation that ends on 0 passes 0 at least once |
| Dial.FoldTwoCoversFoldOne | src/bin/01.rs:15-28 | every rotation counted by part one also counts in part two |
| Dial.AsWrittenAgrees | src/bin/01.rs:24-28 | when no rotation is a whole number of turns, the source's count is the corrected one |
| Dial.PartTwoCoversPartOne | src/bin/01.rs:14-30 | part two's answer is never below part one's |
| Dial.AsWrittenOverCounts | src/bin/01.rs:26-27 | `L50` then `R100` makes the source answer 3 where the clicks on 0 number 2 |
| Dial.FoldOneTrace | src/bin/01.rs:15-18 | given where each rotation stops, part one counts the zeros among those stops |
| Dial.FoldTwoTrace | src/bin/01.rs:24-28 | given where each rotation stops, part two adds each rotation's hits |
| Dial.ExampleInput | src/bin/01.rs:3-11 | the puzzle example's text reads back as its ten rotations |
| Dial.ExampleAnswers | src/bin/01.rs:36-46 | the example answers 3 and 6, both as written and corrected |
| Dial.Answers | src/bin/01.rs:14-30 | on written-out rotations each part is its fold from 50 |
| RepeatedIds.ParseRange | src/bin/02.rs:31-33 | a token holding `-` reads as two 64-bit bounds; a missing piece or a piece that is not a `u64` gives `None` |
| RepeatedIds.Ranges | src/bin/02.rs:28-33 | `Some` exactly when every trimmed non-empty token reads as a range, with at most one range per token |
| Text.TrimExamples | src/bin/02.rs:29 | `trim` takes every white-space character off the ends, among them form feed, vertical tab and no-break space |
| RepeatedIds.ParseRangeRoundTrip | src/bin/02.rs:31-33 | a range written `start-end` reads back as itself |
| RepeatedIds.Pow10Table | src/bin/02.rs:7-24 | the sixteen entries of `POW10` are the powers of ten from `10^0` to `10^15` |
| RepeatedIds.Pow10Add | src/bin/02.rs:62 | powers of ten multiply by adding exponents |
| RepeatedIds.Digits | src/bin/02.rs:42-57 | `ilog10(n) + 1` is the `d` with `10^(d-1) <= n < 10^d` |
| RepeatedIds.DigitsUnique | src/bin/02.rs:42-57 | that `d` is unique |
| RepeatedIds.TableCoversPartOne | src/bin/02.rs:43 | part one's `POW10[digits / 2]` is inside the table for every 64-bit id |
| RepeatedIds.TableCoversPartTwo | src/bin/02.rs:60-62 | part two's `POW10[len]` is inside the table exactly when the id is below `10^15` |
| RepeatedIds.RepeatDigits | src/bin/02.rs:58-64 | a block of `l` digits written `k` times has exactly `l * k` digits |
| RepeatedIds.Geometric | src/bin/02.rs:62 | `10^(l*k) - 1` is `10^l - 1` times the number made of `k` ones spaced `l` apart |
| RepeatedIds.MultiplierExact | src/bin/02.rs:59-62 | when `l` divides the length, the multiplier's division is exact and gives those spaced ones |
| RepeatedIds.HalvesMatchIsDoubled | src/bin/02.rs:41-45 | part one's test keeps exactly the ids made of one block written twice |
| RepeatedIds.SomeBlockRepeatsIsRepeated | src/bin/02.rs:55-66 | part two's test keeps exactly the ids made of one block written at least twice |
| RepeatedIds.HalvesMatchRepeats | src/bin/02.rs:41-66 | every id part one keeps, part two keeps too |
| RepeatedIds.RepeatedBlock | src/bin/02.rs:58-64 | part two's test accepts every block written `k` times |
| RepeatedIds.RepeatPrefix | src/bin/02.rs:61 | the leading `l` digits of a repeated block are the block |
| RepeatedIds.SumRangesMonotone | src/bin/02.rs:38-67 | keeping more ids never lowers the sum over the ranges |
| RepeatedIds.PartOne | src/bin/02.rs:37-48 | `Some` exactly when the input reads and no range holds 0, where `ilog10` panics |
| RepeatedIds.PartTwo | src/bin/02.rs:51-69 | `Some` exactly when the input reads, no range holds 0, and no id reaches `10^15`, beyond the table |
| RepeatedIds.PartOneBelowPartTwo | src/bin/02.rs:37-69 | whenever part two answers, part one answers too, and no more |
| Worksheet.Identity | src/bin/06.rs:5-11 | the starting value of a fold is neutral for its operator on both sides |
| Worksheet.Apply | src/bin/06.rs:14-21 | one step of the fold is the sum of the two values under `+` and their product under `*` |
| Worksheet.ReduceIsSumOrProduct | src/bin/06.rs:14-20 | folding with `+` adds the items up, and folding with `*` multiplies them |
| Worksheet.NonZero | src/bin/06.rs:98-106 | the zero items are left out, so there are no more items than before |
| Worksheet.Step | src/bin/06.rs:29-38 | one character keeps the numbers read, or adds exactly one |
| Worksheet.ReadConcat | src/bin/06.rs:28-39 | reading two texts one after the other is reading their concatenation |
| Worksheet.Operators | src/bin/06.rs:30 | only `*` and `+` are collected as operators |
| Worksheet.Column | src/bin/06.rs:44-46 | a column of the row-major grid has one entry per row |
| Worksheet.PartOne | src/bin/06.rs:23-51 | on a worksheet of digits, spaces, line feeds and at least one operator, the loop's numbers and operators give the sum of each grid column folded with its operator |
| Worksheet.ReadNumber | src/bin/06.rs:31-35 | a positive number followed by a space is kept, and reading starts afresh |
| Worksheet.ReadRows | src/bin/06.rs:28-39 | rows of positive numbers written out read back as the rows, flattened in order |
| Worksheet.ReadOpLine | src/bin/06.rs:30 | an operator line written out reads back as its operators |
| Worksheet.ColumnOfFlatten | src/bin/06.rs:40-46 | reading column `c` out of the flattened rows gives column `c` of the rows |
| Worksheet.TotalsAreProblems | src/bin/06.rs:41-49 | the per-column folds of the flattened grid are the problems of the rows |
| Worksheet.PartOneSolvesColumns | src/bin/06.rs:23-51 | a worksheet written row by row above its operator line reads back exactly, and part one answers the sum of column `c` folded with operator `c` |
| Worksheet.FirstOp | src/bin/06.rs:60-65 | the first loop stops at the first operator character, or never when there is none |
| Worksheet.ReadNumberColumns | src/bin/06.rs:55-85 | the first loop stops just past the first operator and holds one number per character column read down |
| Worksheet.FoldBlocks | src/bin/06.rs:87-116 | the second loop's answer is `Finish`, the sum of each operator's block of non-zero column numbers up to the line feed |
| Worksheet.PartTwo | src/bin/06.rs:54-117 | on an input it reads without a panic, part two's answer is the two loops composed |
| Worksheet.FinishNone | src/bin/06.rs:92-116 | the second loop gives no answer exactly when no line feed follows |
| Worksheet.PartTwoNoneWithoutLineFeed | src/bin/06.rs:54-117 | part two has no answer exactly when the input holds no operator, or no line feed ends the operator line |
| Worksheet.ReadLine | src/bin/06.rs:66-84 | a number line and its line feed extend each column's number by the column's digit, and return to the first column |
| Worksheet.ReadLines | src/bin/06.rs:60-85 | number lines read down give one number per column of the widest line, each spelling its column's digits from top to bottom |
| Worksheet.NumbersAreTransposed | src/bin/06.rs:60-85 | the first loop's numbers are the transposed number lines |
| Worksheet.CutsAscend | src/bin/06.rs:95-102 | the block starts of an operator line strictly increase |
| Worksheet.BlocksInOrder | src/bin/06.rs:95-107 | the blocks that part two reads without a panic start in order and lie inside the numbers |
| Worksheet.FinishSumsBlocks | src/bin/06.rs:92-114 | the second loop adds each operator's block, each ending where the next begins and the last running to the end of the numbers |
| Worksheet.PartTwoSumsBlocks | src/bin/06.rs:54-117 | on number lines above an operator line that fits them, part two reads without a panic and answers the sum of each operator's block of non-zero column numbers |
| Worksheet.SheetAnswer | src/bin/06.rs:60-92 | the first loop reads the number lines as their transposition and stops at the operator that opens the operator line |
| PaperRolls.AsByte | src/bin/04.rs:21-31 | `c as u8` keeps a character below 256 unchanged |
| PaperRolls.CellAt | src/bin/04.rs:10 | a neighbour is read only when it lies inside the grid |
| PaperRolls.CellAtIsGetItem | src/bin/04.rs:10 | on a grid whose cells fill its bounds, that reading is `get_item` |
| PaperRolls.CountAround | src/bin/04.rs:9-12 | at most one roll is counted per direction looked at |
| PaperRolls.CountAroundGrows | src/bin/04.rs:9-12 | looking in more directions never counts fewer rolls |
| PaperRolls.CountAroundOutside | src/bin/04.rs:10 | a direction that leads out of the grid adds nothing |
| PaperRolls.IsRemovable | src/bin/04.rs:7-18 | the early exit at four answers exactly whether fewer than four of the eight neighbours hold a roll |
| PaperRolls.Removable | src/bin/04.rs:22-26 | no more cells can be taken away than were looked at |
| PaperRolls.CountRemovable | src/bin/04.rs:22-26 | the count, cell by cell, is the number of rolls with fewer than four rolls around them |
| PaperRolls.ParPositionOf | mygrid/src/par_grid.rs:11-18 | the place given to a cell has the cell's own line, and on a square grid it is the cell's own place |
| PaperRolls.RemovableAsWritten | src/bin/04.rs:20-28 | the count with rolls judged at the places `par_iter_item_and_position` gives them is at most the cells looked at, and on a square grid it is the intended count |
| PaperRolls.AllRollsAround | src/bin/04.rs:7-18 | on a grid full of rolls, the rolls around a point are its neighbours inside the bounds |
| PaperRolls.TwoRowsAround | src/bin/04.rs:7-18 | on two full rows of three, a middle-column roll has five rolls around it and any other roll three |
| PaperRolls.TwoRowsVerdicts | mygrid/src/par_grid.rs:11-18 | on two full rows of three, offset `i` can be taken away exactly when it is not in the middle column, and is judged so as written exactly when `i` is even |
| PaperRolls.TwoRowsIntended | src/bin/04.rs:20-28 | on two full rows of three, the first `n` cells hold as many removable rolls as there are offsets below `n` outside the middle column |
| PaperRolls.TwoRowsAsWritten | src/bin/04.rs:20-28 | on two full rows of three, the as-written count over the first `n` cells is the number of even offsets below `n` |
| PaperRolls.NonSquareDiffers | src/bin/04.rs:20-28 | on two full rows of three, four rolls can be taken away but `part_one` as written counts three |
| PaperRolls.TwoRowsExample | src/bin/04.rs:20-28 | six rolls read as two lines of three give the intended 4 and the as-written 3 |
| PaperRolls.PartOne | src/bin/04.rs:20-28 | the number of rolls of the grid read from the input that can be taken away |
| PaperRolls.RollOffsets | src/bin/04.rs:33-37 | the offsets of exactly the cells holding a roll, in order |
| PaperRolls.RollOffsetsIncrease | src/bin/04.rs:33-37 | those offsets strictly increase |
| PaperRolls.RemovedBound | src/bin/04.rs:48 | no more cells can have been emptied than there were rolls |
| PaperRolls.RemovedStep | src/bin/04.rs:45-48 | taking one more roll away adds exactly one to the count |
| PaperRolls.Unvisited | src/bin/04.rs:33-37 | `all_rolls` has one unremoved entry per roll, in grid order |
| PaperRolls.UnvisitedTracks | src/bin/04.rs:33-37 | the collected entries are the rolls of the grid, none removed yet |
| PaperRolls.Pass | src/bin/04.rs:42-50 | one pass takes rolls away one at a time, each only while it has fewer than four rolls around it, and records which; if it took one the count grew, and if not every roll left is stuck |
| PaperRolls.TakeRoll | src/bin/04.rs:45-48 | emptying the cell of a removable entry and marking it removed keeps the bookkeeping, with one more roll taken and its offset added to the removal order |
| PaperRolls.StuckRolls | src/bin/04.rs:41-51 | after a pass that took nothing, every roll left on the grid has at least four rolls around it |
| PaperRolls.RemoveRolls | src/bin/04.rs:39-52 | the grid ends as a removal order left it, in which each roll was taken while it had fewer than four rolls around it; the count is the length of that order, and every remaining roll has at least four rolls around it |
| PaperRolls.PartTwo | src/bin/04.rs:30-53 | the answer is the length of an order of removals from the grid read from the input, each taken while it had fewer than four rolls around it, after which no roll can be taken; with `PaperRolls.PeelUnique` this fixes the answer |
| PaperRolls.PeelStep | src/bin/04.rs:44-48 | taking a roll that has fewer than four rolls around it extends a valid removal order by one, emptying exactly that cell |
| PaperRolls.PeelRemoves | src/bin/04.rs:39-52 | a valid removal order only empties rolls, and empties exactly as many cells as it lists |
| PaperRolls.CountAroundMonotone | src/bin/04.rs:7-18 | a grid whose rolls all lie in another grid's rolls counts no more rolls around any point |
| PaperRolls.StuckSurvives | src/bin/04.rs:39-52 | a set of rolls each with at least four rolls of the set around it is never touched by a valid removal order |
| PaperRolls.PeelUnique | src/bin/04.rs:39-52 | any two removal orders that end with no roll removable leave the same grid and have the same length, so the answer of part two does not depend on the order of removal |
| Directions.Reverse | mygrid/src/direction.rs:69-71 | the reverse cancels the direction out |
| Directions.Add | mygrid/src/direction.rs:89-94 | adding the zero direction on either side changes nothing |
| Directions.RotateClockwise | mygrid/src/direction.rs:49-51 | a clockwise quarter turn takes up to right, right to down, down to left and left to up, and the counterclockwise turn undoes it |
| Directions.RotateCounterclockwise | mygrid/src/direction.rs:59-61 | a counterclockwise quarter turn takes up to left, left to down, down to right and right to up |
| Directions.Scale | mygrid/src/direction.rs:192-217 | a multiple is zero exactly when the factor or the direction is zero, and multiplying by `-1` reverses |
| Directions.IsOpposite | mygrid/src/direction.rs:79-81 | two directions are opposite exactly when they add up to zero |
| Directions.IsOrthogonalAsWritten | mygrid/src/direction.rs:84-86 | `is_orthogonal` as written holds only for directions on the same axis (zero cross product) |
| Directions.IsOrthogonal | mygrid/src/direction.rs:84-86 | the corrected test holds only for perpendicular directions (zero dot product) |
| Directions.OrthogonalIsPerpendicular | mygrid/src/direction.rs:84-86 | on the four unit directions, the corrected test holds exactly for the perpendicular pairs |
| Directions.OrthogonalAsWrittenMissesPerpendicular | mygrid/src/direction.rs:84-86 | as written, UP and DOWN are reported orthogonal and UP and RIGHT are not; the corrected test says the opposite |
| Directions.RotationIsOrthogonal | mygrid/src/direction.rs:49-71 | a quarter turn of a unit direction is orthogonal to it, and neither the direction itself nor its reverse is |
| Directions.ScaleNorm | mygrid/src/direction.rs:192-217 | multiplying by `k` multiplies the squared length by `k * k` |
| Directions.ScaleIsRepeatedAdd | mygrid/src/direction.rs:192-217 | multiplying by `n` is adding the direction `n` times |
| Directions.AddLaws | mygrid/src/direction.rs:162-172 | adding directions is commutative and associative, zero is neutral, and adding the reverse undoes a step |
| Directions.RotateFourTimes | mygrid/src/direction.rs:49-61 | four quarter turns either way return the direction, and two clockwise turns reverse it |
| Directions.RotationIsRigid | mygrid/src/direction.rs:49-71 | quarter turns and reversal keep the length, and a quarter turn is perpendicular to where it started |
| Directions.RotationsAreInverse | mygrid/src/direction.rs:49-61 | the two quarter turns undo each other, and a counterclockwise turn is three clockwise ones |
| Directions.ReverseIsOpposite | mygrid/src/direction.rs:69-81 | the reverse is the one opposite direction, and reversing twice gives the direction back |
| Directions.ToU8 | mygrid/src/direction.rs:103-105 | a unit direction packs into `4 * (vertical + 1) + (horizontal + 1)`, the low eight bits of the shifted value |
| Directions.FromU8 | mygrid/src/direction.rs:108-110 | the high six bits give the vertical part and the low two bits the horizontal part, each less one |
| Directions.U8RoundTrip | mygrid/src/direction.rs:103-110 | a unit direction survives packing and unpacking |
| Directions.U8Surjective | mygrid/src/direction.rs:103-110 | every byte is the packing of the direction it unpacks to |
| Directions.U8Injective | mygrid/src/direction.rs:103-105 | two unit directions with the same packing are equal |
| Directions.FromChar | mygrid/src/direction.rs:121-132 | each arrow or initial names its one unit direction, and each unit direction has exactly those two characters |
| Directions.FromStr | mygrid/src/direction.rs:134-139 | a string names the direction of its first character |
| Directions.AllAroundNeighbours | mygrid/src/direction.rs:23-32 | `ALL_AROUND` holds the eight distinct non-zero unit steps |
| Directions.AllAroundValues | mygrid/src/direction.rs:23-32 | the eight steps, clockwise from straight up |
| Directions.AllAroundClockwise | mygrid/src/direction.rs:17-32 | each entry is a quarter turn clockwise from the one two places before, each diagonal is the sum of its two neighbours, and `DIAGONALS` are the odd entries |
| Directions.DirectionExamples | mygrid/src/direction.rs:224-291 | the cases of the library's direction tests |
| Directions.Heading.constructor | mygrid/src/direction.rs:36-41 | a new heading holds the given direction |
| Directions.Heading.RotateClockwiseInPlace | mygrid/src/direction.rs:54-56 | the held direction becomes its clockwise quarter turn |
| Directions.Heading.RotateCounterclockwiseInPlace | mygrid/src/direction.rs:64-66 | the held direction becomes its counterclockwise quarter turn |
| Directions.Heading.ReverseInPlace | mygrid/src/direction.rs:74-76 | the held direction becomes its reverse |
| Directions.Heading.AddInPlace | mygrid/src/direction.rs:97-100 | the held direction becomes its sum with the other |
| Points.AsUsize | mygrid/src/point.rs:88 | `as usize` keeps a value that fits unchanged and always gives a 64-bit value |
| Points.AsIsize | mygrid/src/point.rs:81-100 | `as isize` keeps an `isize` value unchanged and always gives one |
| Points.AsU128 | mygrid/src/point.rs:93 | `as u128` always gives a 128-bit value |
| Points.NewI32 | mygrid/src/point.rs:21-25 | `new_i32` makes a point with non-negative coordinates at the given place |
| Points.AsDirection | mygrid/src/point.rs:105-107 | a point's direction is the vector from the origin to it |
| Points.AsVectorDirection | mygrid/src/point.rs:110-112 | the vector from one point to another, added to the first point's place, reaches the second; it is zero exactly when the points coincide |
| Points.IsBetweenInclusive | mygrid/src/point.rs:61-76 | a point lies between two others exactly when the two are on one line or column and the point lies on the straight path from one to the other |
| Points.Apply | mygrid/src/point.rs:38-43 | applying a direction moves the point by exactly that vector |
| Points.Sub | mygrid/src/direction.rs:183-190 | subtracting a step gives the point that the step leads back to, the same as applying the reverse |
| Points.ScalePoint | mygrid/src/point.rs:129-135 | scaling a point scales its vector from the origin |
| Points.ApplyVector | mygrid/src/point.rs:110-112 | the vector from `a` to `b` leads from `a` to `b`, and the reverse vector leads back |
| Points.ApplyAdds | mygrid/src/point.rs:38-43 | two steps one after the other are one step by their sum, and subtracting a step undoes it |
| Points.Max | mygrid/src/point.rs:46-48 | each coordinate is the larger of the two |
| Points.Min | mygrid/src/point.rs:51-53 | each coordinate is the smaller of the two |
| Points.IsAligned | mygrid/src/point.rs:56-58 | two points are aligned exactly when the vector between them has no vertical or no horizontal part |
| Points.BetweenIsOnWalk | mygrid/src/point.rs:61-76 | `is_between_inclusive` holds exactly when the ends are aligned and the point is reached by walking unit steps from one end toward the other |
| Points.BetweenSymmetric | mygrid/src/point.rs:61-76 | the test does not depend on the order of the ends, and an end lies between them exactly when they are aligned |
| Points.ToUsize | mygrid/src/point.rs:87-89 | the offset is `line * width + column` wherever that fits in 64 bits |
| Points.FromUsize | mygrid/src/point.rs:79-84 | an offset that fits an `isize` becomes its quotient and remainder by the width |
| Points.UsizeRoundTrip | mygrid/src/point.rs:79-89 | a point inside a row survives conversion to an offset and back |
| Points.UsizeRoundTripBack | mygrid/src/point.rs:79-89 | an offset survives conversion to a point and back |
| Points.ToU128 | mygrid/src/point.rs:92-94 | the packing is a 128-bit value |
| Points.FromU128 | mygrid/src/point.rs:97-102 | both unpacked coordinates are `isize` values |
| Points.ToU128Value | mygrid/src/point.rs:92-94 | with a non-negative column, the packing puts the line's 64 bits above the column |
| Points.U128RoundTrip | mygrid/src/point.rs:92-102 | any line and a non-negative column survive packing and unpacking |
| Points.PointExamples | mygrid/src/point.rs:141-214 | the cases of the library's point tests |
| Grids.Unbroken | mygrid/src/grid.rs:31-33 | the characters with every line feed removed |
| Grids.UnbrokenRows | mygrid/src/grid.rs:31-35 | rows written one per line, with or without a final line feed, read back as the rows end to end |
| Grids.FirstLine | mygrid/src/grid.rs:30 | the first line of rows written one per line is the first row, which sets the width |
| Grids.FlattenIndex | mygrid/src/grid.rs:216-228 | in rows of one width laid end to end, cell `(r, c)` sits at offset `r * width + c` |
| Grids.Positions | mygrid/src/grid.rs:207-211 | `iter_positions` yields `width * height` positions |
| Grids.PositionAt | mygrid/src/grid.rs:207-211 | the `i`-th position is line `i / width`, column `i % width`, so lines come first |
| Grids.RowsOf | mygrid/src/grid.rs:37 | `len / width` whole rows fit in the cells |
| Grids.OffsetOfPosition | mygrid/src/grid.rs:199-204 | the position given to an offset leads back to that offset |
| Grids.CellOffset | mygrid/src/grid.rs:214-220 | a position inside the bounds has an offset inside `width * height` that leads back to it |
| Grids.PositionsAreInBounds | mygrid/src/grid.rs:207-211 | the positions `iter_positions` yields are exactly the points inside the bounds |
| Grids.Window | mygrid/src/grid.rs:106-159 | a `w` by `h` window has `w * h` cells |
| Grids.WindowCell | mygrid/src/grid.rs:106-159 | each window cell holds the old cell at the same place, or the default outside the old grid |
| Grids.Grid.constructor | mygrid/src/grid.rs:15-24 | `new` gives `width * height` copies of the default |
| Grids.Grid.FromStr | mygrid/src/grid.rs:26-44 | the width is the first line's length, the cells are the mapped characters without line feeds, and the height is the whole rows they fill |
| Grids.Grid.FromStrCaptureStart | mygrid/src/grid.rs:47-77 | the same grid, and the position of the last character the start test accepts, whose offset is that character's index |
| Grids.Grid.FromVec | mygrid/src/grid.rs:80-88 | the cells as given, with as many whole rows as they fill |
| Grids.Grid.IsInBounds | mygrid/src/grid.rs:171-176 | a point is in bounds exactly when it is one of the grid's positions |
| Grids.Grid.Get | mygrid/src/grid.rs:223-230 | the value read is one of the grid's cells (`GetWraps` says which) |
| Grids.Grid.GetWraps | mygrid/src/grid.rs:223-230 | that cell is column `column % width` of line `line + column / width`: a column past the width reads the next line's cell |
| Grids.Grid.GetItem | mygrid/src/grid.rs:214-220 | `Some` exactly when the point is in bounds, and then the cell at its offset |
| Grids.Grid.Set | mygrid/src/grid.rs:232-237 | only the cell at the point's offset changes, and the size stays |
| Grids.Grid.Row | mygrid/src/grid.rs:101-103 | row `r` holds `width` cells, cell `c` being the cell at `(r, c)` |
| Grids.Grid.ItemsAndPositions | mygrid/src/grid.rs:199-204 | one item per cell, each with the position its offset stands for |
| Grids.Grid.ItemsAreCells | mygrid/src/grid.rs:199-220 | inside the grid, each item is the cell `get_item` finds at its position, in the order of `iter_positions` |
| Grids.Grid.FindPositionOf | mygrid/src/grid.rs:280-285 | `None` exactly when no cell holds the item; otherwise the position of the first cell that does |
| Grids.Grid.Resize | mygrid/src/grid.rs:106-125 | the new grid shows the old cells that fall inside it and the default everywhere else |
| Grids.Grid.ResizeToMaxPoint | mygrid/src/grid.rs:128-135 | the grid becomes just large enough to hold the point, old cells kept |
| Grids.Grid.Clamp | mygrid/src/grid.rs:138-159 | the grid becomes the window from `min` to `max`, both included, with the default outside the old grid |
| Grids.Grid.CopyWindow | mygrid/src/grid.rs:106-159 | the nested loops fill a fresh array with exactly the window |
| Grids.Grid.FillRow | mygrid/src/grid.rs:106-159 | the inner loop puts one more line of the window in place |
| Grids.Grid.Map | mygrid/src/grid.rs:290-296 | a new grid of the same size whose every in-bounds cell is `f` of the position and the old cell |
| Grids.MapCells | mygrid/src/grid.rs:31-35 | one cell per character, each the mapped character |
| Grids.LastIndex | mygrid/src/grid.rs:58-65 | the index of the last accepted character, `None` when none is accepted |
| Grids.Index | mygrid/src/grid.rs:281-283 | `position`: the first index holding the item, `None` when none does |
| Grids.IsTrue | mygrid/src/grid.rs:306-308 | inside the grid and set |
| Grids.IsFalse | mygrid/src/grid.rs:311-313 | exactly the negation of `is_true`: outside, or inside and clear |
| Factory.LightsLimit | src/bin/10.rs:15 | the sixteen lights fill the `u16` word exactly |
| Factory.Inner | src/bin/10.rs:19-32 | the text inside the brackets is the word with its first and last character dropped, and exists only for words of two characters or more |
| Factory.LightValue | src/bin/10.rs:21-25 | `.` is off and `#` is on, every other character fails |
| Factory.LightsFold | src/bin/10.rs:18-28 | a pattern is read exactly when it holds at most sixteen lights, each `.` or `#` |
| Factory.LightsStep | src/bin/10.rs:27 | or-ing in light `i` sets bit `i` when the light is on and keeps the lights below |
| Factory.LightsFoldBits | src/bin/10.rs:18-28 | bit `i` of the read pattern is set exactly when light `i` is `#` |
| Factory.ButtonFold | src/bin/10.rs:31-36 | a button is read exactly when every index, cut to 16 bits, names one of the sixteen lights |
| Factory.ButtonFoldBits | src/bin/10.rs:31-36 | the bits of a read button are exactly the lights it lists |
| Factory.ToggledSnoc | src/bin/10.rs:35 | one more listed index adds one light to what the button toggles |
| Factory.ButtonStep | src/bin/10.rs:35 | or-ing in one light's bit adds that light and keeps the rest |
| Factory.ButtonWords | src/bin/10.rs:74-75 | the buttons are the leading words after the pattern that start with `(` |
| Factory.Buttons | src/bin/10.rs:74-77 | one button per word, each read as `parse_button_p1` reads it |
| Factory.LeadingLines | src/bin/10.rs:68-69 | the lines kept are those before the first empty line |
| Factory.ParseMachines | src/bin/10.rs:71-77 | one machine per line, each read as that line alone |
| Factory.ParsedFits | src/bin/10.rs:15-36 | a parsed pattern and each parsed button fit in the 16-bit word |
| Factory.MachinesFit | src/bin/10.rs:67-77 | every parsed machine fits in the 16-bit word |
| Factory.FewestUnique | src/bin/10.rs:45-63 | the fewest presses that light a pattern are a single number |
| Factory.SearchStarts | src/bin/10.rs:46-48 | the empty visited set and the queue holding only all-off at depth zero satisfy the search invariant |
| Factory.Frontier | src/bin/10.rs:49-60 | any state some presses reach is already expanded no deeper than they are, or the queue's front is no deeper than they are |
| Factory.SkipStep | src/bin/10.rs:53-55 | popping an entry whose state was expanded already keeps the search invariant |
| Factory.Neighbours | src/bin/10.rs:57-59 | one entry per button: the lights toggled by that button, one level deeper |
| Factory.VisitStep | src/bin/10.rs:56-59 | expanding a new state and queueing one press of every button keeps the search invariant and grows the visited set by one |
| Factory.VisitSound | src/bin/10.rs:57-59 | every entry queued is reached by the presses recorded with it |
| Factory.VisitLayered | src/bin/10.rs:57-59 | the queue still holds one depth and then the next, in order |
| Factory.VisitExpanded | src/bin/10.rs:56-59 | every press from an expanded state leads to an expanded state or to one waiting in the queue |
| Factory.PushPresses | src/bin/10.rs:57-59 | the inner loop appends one entry per button, in button order |
| Factory.FewestPresses | src/bin/10.rs:45-63 | `bfs_p1`: the depth returned is the fewest presses that light the pattern; `None`, where the source reaches `unreachable!`, only when no presses light it |
| Factory.FoundFewest | src/bin/10.rs:50-52 | the pattern at the front of the queue is reached at the front's depth and at no smaller one |
| Factory.AnswersUnique | src/bin/10.rs:66-84 | the answers of every machine are determined by the machines |
| Factory.SumFewest | src/bin/10.rs:71-81 | the sum of every machine's fewest presses, or `None` when some machine cannot be solved |
| Factory.AnswersSnoc | src/bin/10.rs:79-81 | one more machine adds its fewest presses to the sum |
| Factory.PartOne | src/bin/10.rs:66-84 | `part_one`: the sum of every machine's fewest presses; `None` only for a line it cannot parse or a machine no presses solve |
| Factory.ParseBelow | src/bin/10.rs:98-108 | parsing into a narrower unsigned type succeeds exactly when the number parses and lies below the type's limit |
| Factory.ButtonJolts | src/bin/10.rs:95-102 | `parse_button_p2`: twelve entries, 1 exactly at the listed indices; `None` exactly when a piece is not a `u8` or names an index past the array |
| Factory.ListedFails | src/bin/10.rs:98-108 | a piece that does not parse below the limit makes the whole list fail |
| Factory.ListedValues | src/bin/10.rs:97-107 | values matching every piece are the listed numbers |
| Factory.Counters | src/bin/10.rs:105-111 | `parse_counters`: the listed `u16` values in order, padded with zeros to twelve; `None` exactly when a piece is not a `u16` or there are more than twelve |
| Factory.ListedBelowValues | src/bin/10.rs:107-108 | values below the limit that match every piece satisfy the limit test |
| Factory.CountersOverflow | src/bin/10.rs:107-108 | a thirteenth piece does not fit the twelve counters |
| Tiles.ParseEach | src/bin/09.rs:11-15 | every line read by the parser, in order; `None` exactly when some line does not parse |
| Tiles.ParseTiles | src/bin/09.rs:10-16 | `parse_input`: one tile per line; `None` exactly when some line has no comma or a side that is not an `i64` |
| Tiles.ParseSignedDecimal | src/bin/09.rs:14 | a 64-bit coordinate written in decimal parses back to itself and holds no comma |
| Tiles.ParseTileText | src/bin/09.rs:13-14 | a tile written as `x,y` parses back to the same tile |
| Tiles.TileTextLine | src/bin/09.rs:12 | a tile's text is one line of its own |
| Tiles.TileTexts | src/bin/09.rs:12 | one line per tile, in order |
| Tiles.LinesOfInput | src/bin/09.rs:12 | the lines of an input written from tiles are the tiles' texts |
| Tiles.LinesOfInputCons | src/bin/09.rs:12 | the first line is the first tile's text, the rest are the rest |
| Tiles.ParseInputText | src/bin/09.rs:10-16 | an input written from tiles with 64-bit coordinates parses back to those tiles |
| Tiles.Area | src/bin/09.rs:19-23 | the area covers at least the tiles of the rectangle's full width and full height |
| Tiles.AreaSymmetric | src/bin/09.rs:19-23 | the area does not depend on the order of the corners |
| Tiles.BBox | src/bin/09.rs:26-33 | the box holds both tiles and each of its sides passes through one of them |
| Tiles.BBoxSymmetric | src/bin/09.rs:26-33 | the box does not depend on the order of the tiles |
| Tiles.BBoxSmallest | src/bin/09.rs:26-33 | every box holding both tiles contains `bbox` |
| Tiles.AreaOfBBox | src/bin/09.rs:19-33 | the area is the number of tiles in the bounding box |
| Tiles.IntersectsReversed | src/bin/09.rs:36-61 | whether an edge cuts a box does not depend on the edge's direction |
| Tiles.CutsInterior | src/bin/09.rs:36-61 | an axis-aligned edge passing over a tile strictly inside the box cuts it |
| Tiles.IntersectsMeetsBox | src/bin/09.rs:36-61 | an edge that cuts a box is axis-aligned and passes over a tile of the box strictly between two opposite sides |
| Tiles.Intersects | src/bin/09.rs:36-61 | only an axis-aligned edge cuts a box, and an edge lying along a side of the box never does |
| Tiles.PointBoxUncut | src/bin/09.rs:36-61 | a rectangle on a single tile is never cut |
| Tiles.Closed | src/bin/09.rs:96 | the list with its first tile pushed again at the end |
| Tiles.Cut | src/bin/09.rs:103-108 | `windows(2).any`: true exactly when some pair of consecutive tiles forms an edge that cuts the box |
| Tiles.CutClosed | src/bin/09.rs:96-108 | the closed list's windows are exactly the polygon's edges, the last tile joined back to the first |
| Tiles.CutRotated | src/bin/09.rs:96-108 | whether a box is cut does not depend on which tile the list starts from |
| Tiles.RotatedEdge | src/bin/09.rs:96-103 | edge `k` of the rotated list is edge `k + 1` of the original |
| Tiles.BoundedStep | src/bin/09.rs:73-77 | after one more pair the running maximum bounds every pair seen so far |
| Tiles.LargestArea | src/bin/09.rs:72-78 | the double loop ends with the largest area over all pairs of tiles, 0 when there are none |
| Tiles.PartOneBrute | src/bin/09.rs:69-81 | `part_one_brute`: the largest area over all pairs of tiles; `None` exactly when parsing panics |
| Tiles.Row | src/bin/09.rs:89-92 | the inner loop pushes `j` rectangles |
| Tiles.RowAt | src/bin/09.rs:89-92 | the `b`-th rectangle of row `i` has corners `pos[i]` and `pos[b]` and their area |
| Tiles.RowsSound | src/bin/09.rs:88-93 | every rectangle pushed comes from some pair of tiles |
| Tiles.RowsComplete | src/bin/09.rs:88-93 | every pair of tiles in the rows done so far has its rectangle pushed |
| Tiles.RowsHas | src/bin/09.rs:88-93 | a finished row's rectangles stay in the list |
| Tiles.RowsGrow | src/bin/09.rs:88-93 | rectangles already pushed stay pushed |
| Tiles.Rectangles | src/bin/09.rs:87-93 | the double loop fills the list row by row with exactly the rectangles of all pairs |
| Tiles.Uncut | src/bin/09.rs:99-110 | an area is kept exactly when some rectangle of that area is cut by no edge of the path |
| Tiles.Max | src/bin/09.rs:111 | `max`: `None` exactly on no areas, otherwise one of them and at least every other |
| Tiles.PartTwoBrute | src/bin/09.rs:83-114 | `part_two_brute`: the largest area of a rectangle between two tiles that no polygon edge cuts; `None` exactly when parsing panics or there are no tiles |
| Tiles.LargestFitting | src/bin/09.rs:96-111 | the maximum of the kept areas exists and is the largest area over the pairs that fit |
| Tiles.UncutHas | src/bin/09.rs:99-110 | every pair that fits has its area among the kept ones |
| Tiles.PointFits | src/bin/09.rs:99-110 | a rectangle on a single tile always fits, so some area is always kept |
| Regions.FitsFrom | src/bin/12.rs:9-20 | a region line is judged only when it has a colon |
| Regions.Verdicts | src/bin/12.rs:8-21 | one verdict per region line, in order |
| Regions.Tally | src/bin/12.rs:8-22 | `filter` then `count`: at most one per region |
| Regions.RegionLines | src/bin/12.rs:6-7 | the lines after the first thirty, none when there are thirty or fewer |
| Regions.PartOne | src/bin/12.rs:4-24 | no regions count as zero, and the count is at most the number of region lines |
| Regions.PartOneAsWritten | src/bin/12.rs:4-24 | as written, with the counts read from `counts[2..]`: no regions count as zero, and the count is at most the number of region lines |
| Regions.PartTwo | src/bin/12.rs:27-29 | part two has no answer |
| Regions.TallyCons | src/bin/12.rs:22 | a region in front adds one exactly when it fits |
| Regions.TallyParts | src/bin/12.rs:22 | a count that exists splits into the first region and the rest |
| Regions.TallyConcat | src/bin/12.rs:22 | the count over two runs of regions is the sum of their counts |
| Regions.TallyDefined | src/bin/12.rs:8-22 | the count exists exactly when no region line panics |
| Regions.TallyExtremes | src/bin/12.rs:8-22 | every region is counted exactly when all fit, and none exactly when none fits |
| Regions.PartOneDefined | src/bin/12.rs:4-24 | part one answers exactly when no region line panics |
| Regions.Decimals | src/bin/12.rs:12-16 | one rendered number per count |
| Regions.DecimalsHaveNo | src/bin/12.rs:11-15 | rendered numbers hold no separator |
| Regions.ParseDecimals | src/bin/12.rs:12-16 | rendered numbers parse back to themselves |
| Regions.SizeHasNoColon | src/bin/12.rs:9 | the size part of a region holds no colon, so the split happens after it |
| Regions.RegionTextParts | src/bin/12.rs:9 | a region line is its size, a colon and the counts after a space |
| Regions.RegionTextSplit | src/bin/12.rs:9 | splitting a region line at the colon gives the size and the counts with their leading space |
| Regions.SidesText | src/bin/12.rs:10-11 | splitting the size at `x` gives the two sides |
| Regions.ParsePair | src/bin/12.rs:12 | two rendered sides parse back |
| Regions.SizeText | src/bin/12.rs:10-13 | the region's size is the product of its sides |
| Regions.SizeOfRegion | src/bin/12.rs:10-13 | a `WxH` region has `W * H` cells |
| Regions.RequiredOfCounts | src/bin/12.rs:14-17 | the counts need nine cells per present |
| Regions.FitsFromParts | src/bin/12.rs:9-20 | a region is counted exactly when its size reaches the cells required |
| Regions.RegionFits | src/bin/12.rs:4-20 | with the counts read from just past the colon's space, a region is counted exactly when its area holds a 3x3 square for every present |
| Regions.SmallDecimals | src/bin/12.rs:12-16 | three and ten are written `3` and `10` |
| Regions.ZeroRequired | src/bin/12.rs:14-17 | a single count of zero requires no room |
| Regions.TenText | src/bin/12.rs:14-16 | a single count of ten is written `10` |
| Regions.DroppedDigit | src/bin/12.rs:14 | as written, `3x3: 10` loses the `1` of its count and is counted as needing no room |
| Regions.TenPresentsDoNotFit | src/bin/12.rs:14-20 | read from just past the space, `3x3: 10` needs 90 cells and is not counted |
| Regions.DroppedLead | src/bin/12.rs:14-16 | the counts as read from `counts[2..]`: as many as written, the first no larger than written and the others unchanged |
| Regions.Trailing | src/bin/12.rs:14 | a first count of two digits or more keeps at least one digit once its leading one is skipped |
| Regions.DigitsSuffix | src/bin/12.rs:14-16 | dropping the leading digit never makes a number larger, so the shortened count still fits in 64 bits |
| Regions.JoinHead | src/bin/12.rs:14-15 | replacing the first count's text leaves the text of the other counts unchanged |
| Regions.AsWrittenText | src/bin/12.rs:14 | `counts[2..]` is the first count without its leading digit, then the other counts |
| Regions.TrailingParses | src/bin/12.rs:16 | the shortened first count parses to the value of its remaining digits |
| Regions.AsWrittenSplit | src/bin/12.rs:15 | splitting that text at spaces gives the shortened first count and the other counts |
| Regions.AsWrittenPieces | src/bin/12.rs:15-16 | those pieces parse to the counts as read, the first without its leading digit |
| Regions.RequiredOf | src/bin/12.rs:14-17 | counts text whose pieces parse needs nine cells per present it lists |
| Regions.AsWrittenRequired | src/bin/12.rs:14-17 | the shortened first count and the other counts, joined by spaces, need nine cells per present of the counts as read |
| Regions.AsWrittenCounts | src/bin/12.rs:14-17 | as written, a region whose first count has two digits or more needs nine cells per present with that count's leading digit dropped |
| Regions.RegionFitsAsWritten | src/bin/12.rs:8-20 | as written, a region whose first count has two digits or more is counted exactly when its area holds nine cells per present of the counts read with that count's leading digit dropped |
| Regions.SingleDigitPanics | src/bin/12.rs:14-16 | as written, a region whose first count is a single digit makes `part_one` panic on an empty piece |
| RepeatedIds.HalvesToDoubled | src/bin/02.rs:41-45 | an id whose halves match is its upper half written twice |
| RepeatedIds.DoubledToHalves | src/bin/02.rs:41-45 | a block written twice passes part one's halves test |
| RepeatedIds.RepeatsToRepeated | src/bin/02.rs:58-65 | an id passing part two's test for block length `l` is a block of `l` digits written at least twice |
| RepeatedIds.RepeatedToRepeats | src/bin/02.rs:58-65 | a block written at least twice passes part two's test for its length |
| RepeatedIds.RepeatedLength | src/bin/02.rs:57-59 | a block of `l` digits written `k` times has `l * k` digits, so `l` divides the length and is at most half of it |

## Left out

- Day 8 (`src/bin/08.rs`) is not modelled. Its points are `f64` coordinates, it finds neighbours with the external `kdtree` crate, joins circuits with the external `aph_disjoint_set` crate, and orders pairs in a `BinaryHeap`; floating point and foreign code are outside this model.
- The parallel iterators of `rayon` (`par_bridge`, `par_iter`) in days 2, 9 and 10 are modelled as sequential folds. Those folds are sums, counts and maxima, which do not depend on order. Day 4's `par_iter_item_and_position` is also a `rayon` iterator; its count is likewise order-free, and its column placement is the subject of the PaperRolls.PartOne line below.
- PaperRolls.PartOne: models `part_one` as though it read the grid with `iter_item_and_position`, whose column is `i % width`. The source uses `par_iter_item_and_position`, whose column is `i % height` (`mygrid/src/par_grid.rs:17`). `PaperRolls.RemovableAsWritten` models that reading and proves that the two agree on square grids; `PaperRolls.NonSquareDiffers` shows a non-square grid on which they differ (see Findings).
- Reactor.CountWays, PartOne, PartTwo: `ways` is a `Vec<i32>` in the source (`src/bin/11.rs:71`). The model counts paths without bound, so the overflow above 2^31 − 1 (a panic in debug builds, a wrap in release builds) is not modelled. Nor is the sign extension of `ways[end] as u64`.
- Lengths, widths and slice positions count characters, where the source counts UTF-8 bytes (`mygrid/src/grid.rs:30`, `src/bin/10.rs:19`, `src/bin/12.rs:14`, `src/bin/01.rs:8`). The two agree on ASCII input, which is all the puzzles use.
- Integer widths: `u64`, `usize`, `isize` and `i64` arithmetic is unbounded here, so overflow panics and wrap-around are not modelled. This covers the day-9 areas, the day-12 product of the sides, the day-6 products and the sums of every part. Parsing still rejects numbers that do not fit their type, and the casts the code relies on are written out: `as u16` in day 10, `as u128` in `to_u128`, `as u8` in `to_u8` and `c as u8`.
- The puzzle examples that the tests read from files are not part of this model. Days 2 to 6, 9, 10 and 12 therefore have no example answers. Day 7's and day 1's examples are stated in the model.
- Reactor.PartTwo: the test at `src/bin/11.rs:117-134` gives its graph inline and expects 2. That answer is not stated, because the model's graph is a table of 2^15 adjacency lists, which the verifier cannot evaluate on a concrete input.
- Day 10 part two (`solve_z3`, `part_two`) calls the Z3 optimiser and is not modelled; its two parsers are. `debug_lights` only prints and is left out.
- Day 9: the input-shape shortcuts (`part_one`, `part_two` and their helpers, `src/bin/09.rs:122-230`) are left out. The brute-force solutions they replace are modelled.
- `Display`, `Debug` and `Hash` of `Grid`, `Point` and `Direction`, plus `to_fmt` and `to_debug`, are left out because they only format or hash. `iter`, `iter_mut`, `iter_rows` and `iter_rows_mut` are left out because they expose `content` as it is. `cols` and `rows` are the class fields `width` and `height`. `new_char_grid_from_str` is `FromStr` with the identity map.
- `Direction::new_i32` and `Point::new_usize` are plain casts, modelled by the integer coordinates themselves. `Direction + Point` and `Point + Direction` are `apply_direction`, modelled once as `Points.Apply`.
- Grids.Grid.Get: the model indexes only with non-negative coordinates inside the content. On a negative coordinate, `(line as usize) * width + column as usize` (`mygrid/src/grid.rs:228`) overflows: in a debug build it panics, and in a release build it wraps, so `Point(1, -1)` reads `content[width - 1]`. Neither case is modelled.
- PaperRolls.CellAt: a cell inside the bounds but past the stored cells reads as nothing, where `get_item` would panic on the short slice.
- Worksheet.PartOne: the result is the total itself, where the source always wraps it in `Some`. Its preconditions are the characters `unreachable!` excludes and a worksheet with at least one operator, since `from_vec` divides by the operator count.
- Worksheet.PartTwo: requires the input to be one the source reads without panicking; inputs that reach `unreachable!` are not modelled.
- IdRanges.PartTwo: requires every range of `IdRanges.RangesOnly` to satisfy start ≤ end. An empty inclusive range, with start past its end, still takes part in `overlaps` and `merge` in the source and is not modelled.
- BeamSplitter.Solve, PartOne, PartTwo: require a first line holding `S`. They also require that every column a beam occupies holds `.` or `^` in the next line. Elsewhere the source would `unwrap` a `None`, index past the line or reach `unreachable!`.
- DigitPicker.PartOne, PartTwo: require digit-only lines at least as long as the number of digits picked. On a non-digit character the source's `c.to_digit(10).unwrap()` (`src/bin/03.rs:6`) panics on `None`. On a shorter line the first window end `line.len() - N` (`src/bin/03.rs:17`) underflows `usize`: a debug build panics there, and in a release build it wraps and the slice `line[beg..=end]` (`src/bin/03.rs:18`) panics out of range. Neither panic is modelled.
- PaperRolls.PartOne, PartTwo: require a non-empty first line, which sets the grid's width. The result is the count, where the source wraps it in `Some`.
- Reactor.ParseLine, Reactor.Hash: accept only names of three lowercase letters. The source's `hash` also packs the bytes `{`, `|`, `}`, `~` and DEL, whose fields are 26 to 30. In a release build the length check is compiled out, so a longer name is hashed by its first three bytes. Lines with such names are rejected here although the source parses and routes them.
- Reactor.PartOne, PartTwo: require lines that parse and at most one line per device, which the source checks only with a debug assertion. Part two also requires an acyclic graph. On a graph with a cycle, Kahn's order leaves devices out, and that case is not modelled.
- RepeatedIds.PartTwo: answers `None` for ids of more than fifteen digits, where the source indexes past its sixteen-entry table of powers of ten.
- Points.NewI32, Points.FromUsize, Grids.Grid.FromStr, Grids.Grid.FromStrCaptureStart, Grids.Grid.FromVec, Grids.Grid.Set, Grids.Grid.Row, Grids.Grid.ItemsAndPositions, Grids.Grid.FindPositionOf, Grids.Grid.ResizeToMaxPoint, Grids.Grid.Clamp: their preconditions exclude the inputs on which the source panics, and those panics are not modelled:
  - `new_i32` on a negative coordinate fails its `assert!` (`mygrid/src/point.rs:21-22`);
  - `from_usize` with width 0 divides by zero, and `isize::MIN / -1` overflows;
  - `new_from_str` and `new_from_str_capture_start` `unwrap` the first line of an empty input (`mygrid/src/grid.rs:30`) and divide by a zero width (`mygrid/src/grid.rs:37`), and the latter also `unwrap`s a missing start (`mygrid/src/grid.rs:75`);
  - `from_vec` divides by a zero width (`mygrid/src/grid.rs:81`);
  - `IndexMut` on an offset that is negative or past the content indexes out of range;
  - `row` slices past the end of the content (`mygrid/src/grid.rs:101`);
  - `iter_item_and_position` and `find_position_of` divide by a zero width over non-empty content;
  - `resize_to_max_point` and `clamp` cast a negative extent to a huge `usize` (`mygrid/src/grid.rs:128`, `mygrid/src/grid.rs:138`), and the allocation of that many cells fails.
- Factory.LightsFold, Factory.ButtonFold: a shift of the 16-bit word by 16 or more (`src/bin/10.rs:27`, `src/bin/10.rs:35`) is read as the panic of a debug build and gives `None`. In a release build the shift amount is masked to its low four bits instead, and that reading is not modelled.
- Directions.FromChar, FromStr: require one of `^`, `v`, `<`, `>`, `U`, `D`, `L` or `R` (and, for `FromStr`, a non-empty string). On any other character the source reaches `unreachable!`, and on an empty string it `unwrap`s a `None`; those panics are not modelled.
- Points.U128RoundTrip: holds only for non-negative columns. A negative column's `as u128` sign-extends over the line's bits, so such a point does not come back.
- The day-9 model, like `bbox_intersects_line`, lets only vertical and horizontal edges cut a rectangle. A diagonal edge, which the puzzle rules out, is ignored in the same way.
- Regions.PartOne: the test in `src/bin/12.rs:36-39` expects `None`, but `part_one` always returns `Some` or panics. `Regions.PartOneAsWritten` follows the code as written; `Regions.PartOne` reads the counts from `counts[1..]`, as the finding below explains.

## Findings

| source | as written | input that shows it | evidently intended | confidence | as-written member | corrected member |
|---|---|---|---|---|---|---|
| src/bin/01.rs:26-27 | when the dial stands on 0 and a rotation is a non-zero whole number of turns, `n == 0` adds one click more than `v.abs() / 100` already counted | `L50` then `R100`: the source answers 3, while the dial clicks onto 0 twice | the extra click counted only when the rotation leaves a remainder (`v % 100 != 0`) | medium, not executed | Dial.PartTwoAsWritten, Dial.AsWrittenOverCounts | Dial.PartTwo, Dial.PartTwoIsSweep |
| src/bin/12.rs:14 | `counts[2..]` skips the space after the colon and the first digit of the first count | `3x3: 10` is read as needing 0 cells and counted; a single-digit first count leaves an empty piece whose `parse` panics | `counts[1..]`, skipping only the space | medium, not executed | Regions.RegionFitsAsWritten, Regions.SingleDigitPanics, Regions.DroppedDigit | Regions.PartOne, Regions.RegionFits, Regions.TenPresentsDoNotFit |
| mygrid/src/par_grid.rs:17 | `par_iter_item_and_position` gives offset `i` the column `i % height` instead of `i % width` | two lines of three rolls (`@@@` twice): `part_one` judges offsets 2, 3 and 4 at the wrong column and answers 3, while 4 corner rolls can be taken away | column `i % width`, as `iter_item_and_position` gives | medium, not executed | PaperRolls.RemovableAsWritten, PaperRolls.NonSquareDiffers | PaperRolls.PartOne, PaperRolls.CountRemovable |
| mygrid/src/direction.rs:84-86 | `is_orthogonal` holds when both directions are horizontal or both vertical, that is when they share an axis | `UP.is_orthogonal(&DOWN)` is true and `UP.is_orthogonal(&RIGHT)` is false | true exactly for perpendicular directions (zero dot product) | low, not executed | Directions.IsOrthogonalAsWritten, Directions.OrthogonalAsWrittenMissesPerpendicular | Directions.IsOrthogonal, Directions.OrthogonalIsPerpendicular |
