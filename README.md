# Parking-sensor beep levels and object counting, in Dafny

This project models the core of FaultToleranceExercises, a set of Python
exercises in fault tolerance.

- **The beep-level drafts.** A reversing car has several distance sensors and
  a list of beep levels, from the most intense to the least. Each draft turns
  the sensor readings into the index of a level. The four drafts add
  redundancy in different ways:
  - `teste.py` (module `BeepBasic`) takes the nearest reading and looks up
    its level.
  - `qcsfr4.py` (module `RedundantSensors`) adds primary and backup sensors,
    filtering of negative readings, and a fallback to the distances of an
    earlier call. It then takes the more intense of the levels of the minimum
    and of the median.
  - `teste2majorityvoting.py` (module `TripleVoting`) groups the sensors in
    triples. Each triple votes a distance. The votes are smoothed by a moving
    mean, and the result is the more intense of two levels.
  - `teste3.py` (module `SensorRecovery`) adds a checksum, a retrying read,
    a stored last valid distance, and a majority vote that falls back to the
    median. It looks up levels from the far end.
- **The object counter.** `qcsfr5.py` (modules `FloodFill` and
  `FloodFillExamples`) counts the objects of a grey-level image. An object is a
  4-connected group of cells brighter than a threshold. The counter scans the
  image row by row and starts a breadth-first expansion from every bright cell
  that no earlier expansion reached.

`BeepCommon` holds what the drafts share:
- the `Reading` datatype, for a number or a non-numeric entry;
- Python's `min`, `max` and `Counter.most_common`;
- `statistics.mean` and `statistics.median`;
- the level lookup `next((i for i, level in enumerate(levels) if d <= level), len(levels))`.

Readings and levels are integers. A mean or a median is an exact real.

How the model handles state:
- The module-level stores `previous_distances` (of `qcsfr4.py` and of
  `teste2majorityvoting.py`) and `last_valid_distance` (of `teste3.py`) are
  fields of classes. These are `RedundantSensors.Monitor`,
  `TripleVoting.Monitor` and `SensorRecovery.BackupCell`, and the methods
  that reassign the fields are proved against functions of the old state.
- The loops of the source are `while` loops with invariants:
  - the level searches;
  - the grouping of triples;
  - the retrying read;
  - the backup loop over the votes;
  - both scan loops and the queue loop of `count_objects`.
- `CountObjects` is proved to return exactly the number of 4-connected
  components of the bright cells, and at most width times height.

What the proofs show about the code, beyond the properties in the table:
- **Levels of the minimum and of a second statistic.** In `qcsfr4.py` and in
  `teste2majorityvoting.py`, the "second method" never changes the answer.
  The median or the smoothed mean is never below the minimum, and the lookup
  is monotone, so `min(method_1, method_2)` is always `method_1`. This is
  proved by `MinOrMedianLevel` and `MinOrSmoothedLevel`.
- **The fallback to earlier distances cannot be reached.** In the
  fault-tolerant `get_beep_level` of `qcsfr4.py`, validation rejects every
  negative reading. So no backup is ever substituted, no reading is filtered
  out, and the fallback to `previous_distances` (lines 79-83) is never taken.
  This is proved by `Validated`, `NonNegativeKeepsAll` and
  `NegativeReadingsRejected`.
- **The checksum test never fails.** The test at `teste3.py:70` appends the
  checksum of the readings to the readings themselves. Proved by `Screen` and
  `ChecksumRoundTrip`.
- **The empty-group branch is dead.** In `teste2majorityvoting.py`, the median
  branch of `majority_voting` is taken only for an empty group. The grouping
  loop never builds one.
- **`previous_distances` is never read.** In `teste2majorityvoting.py` it is
  written but not read.
- **The far-end lookup gives a different level.** The lookup of `teste3.py`
  (line 101) takes the last level at most the distance. When the levels are
  strictly increasing and the first level is at most the distance, this is the
  level just below the one the other drafts give, unless the distance equals
  a level. This is proved by `LookupsCompared`. Below the first level both
  lookups give 0.

Several expectations in the comments and test tables differ from what the code
computes; the example lemmas state what the code computes.
- `teste.py:89` expects 3, and the code gives 2.
- `qcsfr4.py`:
  - lines 36 and 103 expect 4, and the code gives 5;
  - lines 37 and 104 expect 2, and the code gives 3;
  - lines 39 and 106 expect 0, and the code gives 1;
  - line 115 expects 2, and the code gives 3.
- In the FR4 table of `teste2majorityvoting.py`:
  - the six readings of 100 at line 101 expect 4, and the code gives 5;
  - TC1 expects 0, and the code gives 1;
  - TC2 expects 2, and the code gives 1;
  - TC4 expects 0, and the code gives 1;
  - TC5 expects -1, and the code gives 0;
  - TC10 expects 2, and the code gives 3.
- In `faulttolerancetestcase.py`:
  - `test_safe_reading` can fail, because three out-of-range readings in a row
    give -1.
  - `test_backup_distance` assigns its own module's global, so the store of
    `teste3.py` keeps its value of 50. With 40 then -5, the answers are 40 and
    40 either way.

## Model

| member | source | states |
|---|---|---|
| BeepCommon.Min | qcsfr4.py:25 | the minimum is an element of the list and no element is smaller |
| BeepCommon.FirstAtLeast | qcsfr4.py:92 | the result lies in 0..len(levels); the level at the result reaches the distance; every earlier level is below it |
| BeepCommon.FirstAtLeastMonotone | qcsfr4.py:89-98 | a farther distance never gets an earlier, more intense level |
| BeepCommon.FirstAtLeastUnique | qcsfr4.py:92 | an index with the lookup's two properties is its result, so the lookup is fully characterised |
| BeepCommon.MostCommon | teste2majorityvoting.py:48-52 | the vote is a reading of the group; no reading is more frequent; it is the first of the most frequent readings |
| BeepCommon.VoteOfThree | teste2majorityvoting.py:48-52 | two agreeing sensors of three outvote the third; with three different readings the first sensor wins |
| BeepCommon.MeanBetween | teste2majorityvoting.py:54-59 | a mean lies between any lower and any upper bound of the list |
| BeepCommon.Sort | qcsfr4.py:95 | the sorted list the median is read from is sorted and a permutation of the input |
| BeepCommon.MedianBetween | qcsfr4.py:95 | the median lies between any lower and any upper bound of the list |
| BeepCommon.MedianOfOdd | teste3.py:54 | the median of an odd-length list is the middle sorted value, which is one of the readings |
| BeepBasic.LevelIndex | teste.py:24-38 | the result is -1 or an index of the levels; it is the first level reaching the distance, or the last index when every level is below it |
| BeepBasic.FindLevel | teste.py:35-38 | the search loop returns exactly LevelIndex |
| BeepBasic.LevelIndexMonotone | teste.py:24-38 | a farther distance never gets an earlier level |
| BeepBasic.MinDistance | teste.py:41-55 | -1 for an empty list, else an element no element is below |
| BeepBasic.Fr4 | teste.py:58-77 | -1 for fewer than two sensors or a minimum of -1, else the level of the nearest reading |
| BeepBasic.Fr4NearestSensor | teste.py:58-77 | when some level reaches the nearest reading, the result is a level reaching it and every earlier level is below every reading |
| BeepBasic.Fr4Examples | teste.py:85-92 | the results of the five test cases: 3, 0, 2, -1, -1 |
| RedundantSensors.BeepLevel | qcsfr4.py:21-32 | -1 for fewer than two readings, else the first level reaching the minimum, or len(levels); the same code is teste2majorityvoting.py:21-32 |
| RedundantSensors.BeepLevelExamples | qcsfr4.py:35-39 | the script's four lookups give 5, 3, 0 and 1 |
| RedundantSensors.Validated | qcsfr4.py:71-74 | a position is non-negative whenever its primary or its backup is; once every primary is non-negative, no backup is substituted and the result is the primary list |
| RedundantSensors.NonNegative | qcsfr4.py:77 | exactly the non-negative readings are kept, each as often as in the input, and negative ones are dropped |
| RedundantSensors.NonNegativeKeepsAll | qcsfr4.py:61-77 | after validation the filter removes nothing |
| RedundantSensors.Recover | qcsfr4.py:79-83 | the current readings when there are at least two, else the stored ones; nothing when both fail; never empty |
| RedundantSensors.MinOrMedianLevel | qcsfr4.py:89-98 | the more intense of the levels of minimum and median is always the level of the minimum |
| RedundantSensors.Accepted | qcsfr4.py:52-65 | a call passes validation exactly when there are at least two primaries, as many backups, and every primary, backup and level is a non-negative number |
| RedundantSensors.AcceptedParts | qcsfr4.py:61 | the check on the joined list holds exactly when it holds for the primary and for the backup list |
| RedundantSensors.Monitor.constructor | qcsfr4.py:46 | the store starts empty and satisfies the store invariant |
| RedundantSensors.Monitor.GetBeepLevel | qcsfr4.py:48-98 | -1 for a rejected call, and 0 for empty levels, leaving the store unchanged; otherwise the primaries are stored and the result is the level of their minimum; the store invariant is kept |
| RedundantSensors.NegativeReadingsRejected | qcsfr4.py:113-116 | a call whose first primary reads -1 is rejected before anything is stored |
| TripleVoting.Accepted | teste2majorityvoting.py:65-72 | a call that passes validation has non-negative numeric readings in whole triples, at least one triple, so at least one vote |
| TripleVoting.Smooth | teste2majorityvoting.py:54-59 | the smoothed distance lies between the smallest and the largest vote |
| TripleVoting.VoteGroups | teste2majorityvoting.py:77-81 | the grouping loop yields one vote per triple, the most common reading of that triple |
| TripleVoting.VotesAreMajorities | teste2majorityvoting.py:77-81 | each vote is a reading of its triple, and two agreeing sensors of a triple decide its vote |
| TripleVoting.MinOrSmoothedLevel | teste2majorityvoting.py:89-95 | the more intense of the levels of nearest and smoothed vote is always the level of the nearest vote |
| TripleVoting.Monitor.constructor | teste2majorityvoting.py:46 | the store starts empty |
| TripleVoting.Monitor.GetBeepLevel | teste2majorityvoting.py:61-95 | -1 for a rejected call, and 0 for empty levels, leaving the store unchanged; otherwise the votes are stored and the result is the level of the nearest vote |
| TripleVoting.VotesOfNine | teste2majorityvoting.py:77-81 | nine readings agreeing at positions 0 and 2, 3 and 4, and 6 and 7 vote the readings at positions 0, 3 and 6 |
| TripleVoting.AgreeingTriplesLevel | teste2majorityvoting.py:104 | votes 1, 7, 13 give level 0 |
| TripleVoting.AgreeingTriplesExample | teste2majorityvoting.py:104 | TC3 gives level 0, as the table expects |
| TripleVoting.NearestVoteLevel | teste2majorityvoting.py:111 | votes 50, 30, 40 give level 3 |
| TripleVoting.NearestVoteExample | teste2majorityvoting.py:111 | TC10 gives level 3 |
| TripleVoting.OutvotedSensorLevel | teste2majorityvoting.py:102 | votes 100, 30, 7 give level 1 |
| TripleVoting.OutvotedSensorExample | teste2majorityvoting.py:102 | TC1 gives level 1: the first triple votes 100 over 60 |
| SensorRecovery.Checksum | teste3.py:23-24 | the checksum is a byte congruent to the sum of the data modulo 256 |
| SensorRecovery.IsValidData | teste3.py:26-28 | a list passes exactly when its last entry is a byte congruent modulo 256 to the sum of the others |
| SensorRecovery.ChecksumRoundTrip | teste3.py:26-28 | data followed by c passes the check if and only if c is the checksum of the data |
| SensorRecovery.SumUpdate | teste3.py:23-24 | changing one reading changes the sum by the difference |
| SensorRecovery.ChecksumDetectsChange | teste3.py:23-28 | a changed reading passes the old checksum if and only if the change is a multiple of 256 |
| SensorRecovery.ChecksumExample | faulttolerancetestcase.py:17-21 | the checksum of 10, 20, 30, 40 is 100; it passes with 100 and fails with 101 |
| SensorRecovery.SafeReading | teste3.py:31-36 | at most max(retries, 0) calls; -1 only when every call was out of range and all retries were used; otherwise the reading of the last call, which is in range, and every earlier reading was out of range |
| SensorRecovery.Backup | teste3.py:41-47 | an in-range reading is the result, otherwise the stored distance; the result is in range whenever the stored one is |
| SensorRecovery.BackupCell.constructor | teste3.py:39 | the store starts at the safe value 50 |
| SensorRecovery.BackupCell.GetDistance | teste3.py:41-47 | an in-range reading is returned and stored; otherwise the stored distance is returned and kept; an in-range store stays in range |
| SensorRecovery.BackupExample | faulttolerancetestcase.py:29-33 | after 40 the faulty reading -5 is answered with 40 |
| SensorRecovery.MajorityVote | teste3.py:49-54 | a repeated reading of largest count wins; with no repeat the result is the median; always between minimum and maximum |
| SensorRecovery.SortOfThree | teste3.py:54 | the middle element of three sorted readings is their middle value |
| SensorRecovery.MedianOfThree | teste3.py:54 | the median of three readings is their middle value |
| SensorRecovery.MajorityOfThree | teste3.py:49-54 | two agreeing sensors of three outvote the third; three different readings give the middle one |
| SensorRecovery.MajorityVoteExamples | faulttolerancetestcase.py:35-38 | the three votes of the unit test: 10, 20, 30 |
| SensorRecovery.Screen | teste3.py:56-72 | goes on exactly for a non-empty list of readings whose length is a multiple of 3, all readings numeric and non-negative, and non-empty valid levels; then yields the readings |
| SensorRecovery.ScreenRejects | teste3.py:131-143 | the literal calls TC1, TC8, TC9, TC10 and TC11 (repeated as TC13) of the FR4 table are rejected |
| SensorRecovery.ScreenRejectsOutOfRange | faulttolerancetestcase.py:48-49 | the unit test's call with readings 300 and -10 is rejected |
| SensorRecovery.GroupVotes | teste3.py:82-87 | one vote per triple, each between the smallest and the largest reading of its triple |
| SensorRecovery.BackedUp | teste3.py:85-90 | an in-range vote passes; an out-of-range vote repeats the previous distance, or the stored one for the first; all distances are in range when the stored one is |
| SensorRecovery.SafeDistances | teste3.py:85-90 | the loop yields the backed-up votes and leaves the last of them, or the old value, in the store |
| SensorRecovery.LastAtMost | teste3.py:101 | the result is the last level at most the distance, or 0 when there is none |
| SensorRecovery.LastAtMostMonotone | teste3.py:101 | a farther distance never gets an earlier level |
| SensorRecovery.LastAtMostUnique | teste3.py:101 | an index with the lookup's properties is its result |
| SensorRecovery.LookupsCompared | teste3.py:101 | on strictly increasing levels whose first level is at most the distance, this lookup gives one less than the first-reaching lookup, unless the distance is a level |
| SensorRecovery.LastAtMostExamples | teste3.py:101 | distances 30, 1, 100 on the table's levels give 2, 0, 4; with the levels [1], 2 gives 0 |
| FloodFill.AdjacentIsOffset | qcsfr5.py:41 | the four offsets are exactly orthogonal adjacency; diagonal cells are not adjacent |
| FloodFill.ConnectedSym | qcsfr5.py:22-29 | connectivity is symmetric |
| FloodFill.ConnectedTrans | qcsfr5.py:22-29 | connectivity is transitive |
| FloodFill.SameComponent | qcsfr5.py:22-29 | two cells of one object define the same object |
| FloodFill.ClosedHoldsComponent | qcsfr5.py:39-45 | a set closed under bright steps holds the whole object of each of its cells |
| FloodFill.Dequeue | qcsfr5.py:40 | popping the queue keeps the expansion's bookkeeping |
| FloodFill.Enqueue | qcsfr5.py:43-45 | enqueuing an unvisited bright neighbour keeps the bookkeeping and shrinks the unvisited cells |
| FloodFill.TryEnqueue | qcsfr5.py:43-45 | trying a neighbour that passes the guard keeps the bookkeeping |
| FloodFill.TrySkip | qcsfr5.py:43 | trying a neighbour that fails the guard keeps the bookkeeping |
| FloodFill.TryDone | qcsfr5.py:41-45 | after all four offsets the cell is expanded, and the measure decreases |
| FloodFill.Bfs | qcsfr5.py:35-45 | the visited set grows by exactly the object of the start cell; the cells enqueued are that object, each once |
| FloodFill.EmptyQueue | qcsfr5.py:39 | with the queue empty, the enqueued cells are exactly the object of the start |
| FloodFill.FreshSeed | qcsfr5.py:52 | an unreached bright cell belongs to an object no expansion has touched |
| FloodFill.NewObject | qcsfr5.py:52-54 | recording the object of the seed keeps the scan's bookkeeping and moves it one cell on |
| FloodFill.NewObjectCounted | qcsfr5.py:53-54 | the new object is an object of the image not found before, so the count goes up by one |
| FloodFill.SkipCell | qcsfr5.py:52 | a dark or reached cell is passed over with the bookkeeping intact |
| FloodFill.NextRow | qcsfr5.py:50-51 | a finished row moves the scan to the start of the next |
| FloodFill.Label | qcsfr5.py:52-54 | the expansion from an unreached bright cell adds its object to the visited cells and to the objects found |
| FloodFill.ScanColumns | qcsfr5.py:51-54 | the inner loop records every new object of the row, adding at most the width |
| FloodFill.ScanRow | qcsfr5.py:50-54 | one pass of the outer loop extends the scanned rows by one |
| FloodFill.ScanStart | qcsfr5.py:47-48 | no objects and no visited cells is a valid starting state |
| FloodFill.ScanComplete | qcsfr5.py:56 | after the last row the count is the number of objects, and at most width times height |
| FloodFill.AllFound | qcsfr5.py:50-56 | once every row is scanned, the objects found are all objects of the image |
| FloodFill.CountObjects | qcsfr5.py:34-56 | the count is the number of 4-connected objects of above-threshold cells, between 0 and width times height (0 when a side is not positive) |
| FloodFillExamples.ComponentsPartition | qcsfr5.py:22-29 | the objects are pairwise disjoint and every bright cell lies in its own object |
| FloodFillExamples.ExampleHasTwoObjects | qcsfr5.py:59-60 | the example image holds two objects, and the diagonal contact does not join them |
| FloodFillExamples.ExampleBlock | qcsfr5.py:59 | the object of (0, 0) is the top-left 2x2 block |
| FloodFillExamples.ExampleCorner | qcsfr5.py:59 | the bottom-right cell is an object by itself |
| FloodFillExamples.AllBrightIsOneObject | qcsfr5.py:22-29 | an image bright everywhere is one object |
| FloodFillExamples.DarkImageHasNoObject | qcsfr5.py:22-29 | an image with no bright cell has no object |

## Left out

- The Kalman filter of `teste3.py` (lines 5-20 and 89) works in floating point. The model stops at the backed-up distances that are fed to it.
- The median outlier filter and the final `-1` of `teste3.py` (lines 92-98) are not modelled. They act on the Kalman estimates.
- `min(valid_distances)` in `teste3.py` (line 100) is not modelled either. `LastAtMost` models the lookup it feeds.
- The random fault injection of `teste3.py` (lines 74-78) is not modelled, because it needs randomness.
- The simulation driver `simulate_reverse_drive` is not modelled.
- The FR4 and test drivers, `print` and `logging` output are not modelled. Their cases are stated as example lemmas instead.
- Floating point: readings and levels are integers, and means and medians are exact reals. A float reading in the source is not covered.
- The `isinstance(..., list)` checks are not modelled: the arguments are always sequences. A non-numeric entry is `Reading.NonNumeric`.
- SensorRecovery.SafeReading: the sensor function becomes a parameter `sensor: nat -> int` giving the reading of each call. The model does not capture a sensor whose readings depend on anything else.
- SensorRecovery.SafeReading has no default for `retries`; `safe_reading` defaults it to 3, and a caller of the model passes 3 itself.
- SensorRecovery.IsValidData requires a non-empty list; `is_valid_data` raises on an empty one.
- BeepCommon.MostCommon requires a non-empty group. The median branch of `majority_voting` in `teste2majorityvoting.py` is reached only for an empty group, where `statistics.median` raises, and the grouping never builds one.
- SensorRecovery.MajorityVote breaks a tie by first occurrence, where Python picks by set iteration order. A tie with a repeated reading needs at least four readings, and the source only votes on triples.
- FloodFill.Bfs returns the new visited set instead of adding to the enclosing function's set in place. Its ghost output `order` records the enqueued cells for the proof.
- FloodFill.CountObjects: the body of the outer loop is split into `ScanRow`, `ScanColumns` and `Label`, so that each proof stays small.
- The image is only read, so it is a value, `seq<seq<real>>`. For a positive `width`, images too short for `width` and `height`, on which Python raises, are excluded by `Covers`; with no columns any image is accepted, as in the source.
