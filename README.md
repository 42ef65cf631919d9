# Sorting visualizer: a Dafny model

A JavaFX sorting visualizer works in two stages:

- **Trace generation.** One of five generators (bubble, selection, insertion, merge and quick sort) sorts a copy of the array. It records every event as a `SortStep`: the kind of event, the positions it concerns, a snapshot of the whole array, and a status message.
- **Playback.** An animation manager plays the trace on a row of coloured bars, one timed key frame per step. The controller behind the buttons owns the array and starts the runs. A code panel highlights the pseudo-code line of each step, and a statistics record counts events.

This project models that core in Dafny and proves what it promises.

**Generators** (`steps.dfy`, `trace.dfy`, `bubble.dfy`, `selection.dfy`, `insertion.dfy`, `merge.dfy`, `mergesort.dfy`, `quick.dfy`, `quicksort.dfy`):
- Each generator is an imperative method over an `array<int>`, with the source's loops and recursion. It is proved equal to a functional reference run: the array it leaves and the steps it returns are those of `BubbleRun`, `SelectionRun`, `InsertionRun`, `MergeSortRun` or `QuickSortRun`.
- Lemmas about those runs state:
  - the steps replay the array's history exactly, each snapshot differing from the previous one as its kind says;
  - the result is a sorted permutation of the input;
  - every highlight is a valid index;
  - the trace ends in exactly one `COMPLETED` step;
  - the comparison and swap counts, including the best and worst cases of bubble and insertion sort.

**Interface objects** (`bars.dfy`, `tracker.dfy`, `statistics.dfy`, `animation.dfy`, `controller.dfy`) are classes whose methods update their fields in place:
- `BarVisualizer` keeps a colour per bar and the set of sorted indices. Its invariant: a sorted bar in range is always painted SORTED.
- `CodeTracker` keeps the numbered listing lines and the highlighted one.
- `SortingStatistics` keeps 32-bit counters and 64-bit times, with Java's wrap-around written out.
- `AnimationManager` keeps the timeline, modelled as its key-frame schedule and play status, and executes one step on the bars, colour by colour.
- `VisualizerController` owns the array, runs the named generator on a clone and hands the trace to the manager. The two playback callbacks are its methods `OnComplete` and `OnStepUpdate`.

Where the code and the documented behaviour of the program differ, the model follows the code:
- **Selection sort, empty input:** the trace is `SORTED [-1]` then `COMPLETED`, not `COMPLETED` alone, and the `-1` highlight is out of range (`Selection.SelectionSortEmpty`).
- **Insertion sort, empty input:** the trace starts with `SORTED [0]` over an empty snapshot (`Insertion.InsertionSortEmpty`).
- **Merge sort's divide step** is recorded as `PARTITION_START`, not `DIVIDE`. `getCodeLineForStep` therefore shows the default line 3 for it, never its `DIVIDE` line 2.
- **Quick sort's pseudo-code listing** compares with `array[j] < pivot`, but `partition` uses `<=`. The model uses `<=`.
- **Rejecting a second start:** the manager does not reject a second `playStepsWithCodeTracking`. Only the controller's `isRunning` guard does (`VisualizerController.java:104`).

## Model

| member | source | states |
|---|---|---|
| Steps.NewStep | SortStep.java:16-21 | the step holds the given kind and description and copies of both arrays' contents |
| Steps.StepOutlivesArgument | SortStep.java:16-21 | overwriting the arrays after building a step leaves the step's snapshot and highlights as they were |
| Trace.CreateRange | SortingAlgorithms.java:10-16 | the returned array holds start, start+1, …, end in order |
| Trace.TriangleClosed | SortingAlgorithms.java:22-25 | the pairs compared by the nested loops over n elements number n(n-1)/2 |
| Bubble.BubbleSort | SortingAlgorithms.java:18-54 | the array left behind and the steps returned are exactly those of the reference run BubbleRun on the input |
| Bubble.BubbleSortReplays | SortingAlgorithms.java:18-54 | the steps replay the array's history from the input to the result, which is a permutation of the input |
| Bubble.BubbleSortSorts | SortingAlgorithms.java:18-54 | the array ends sorted ascending |
| Bubble.BubbleSortInRange | SortingAlgorithms.java:26-52 | every highlighted index lies inside its step's snapshot |
| Bubble.BubbleSortEnds | SortingAlgorithms.java:51-52 | the last step, and only it, is COMPLETED, with no highlights and the final array |
| Bubble.BubbleSortCompares | SortingAlgorithms.java:22-44 | at most n(n-1)/2 COMPARE steps |
| Bubble.BubbleSortDecreasing | SortingAlgorithms.java:22-44 | a strictly decreasing input costs exactly n(n-1)/2 COMPARE steps (the early exit never fires) |
| Bubble.BubbleSortSortedInput | SortingAlgorithms.java:22-44 | a sorted input of two or more elements stops after one pass: n-1 comparisons, no swap, array unchanged |
| Bubble.BubbleSortConfirms | SortingAlgorithms.java:46-52 | the trace is the passes' steps, then SORTED [0] … SORTED [n-1] over the final array, then COMPLETED |
| Selection.SelectionSort | SortingAlgorithms.java:56-91 | the array left behind and the steps returned are those of the reference run SelectionRun |
| Selection.SelectionSortReplays | SortingAlgorithms.java:56-91 | the steps replay the array's history; the result is a permutation of the input |
| Selection.SelectionSortSorts | SortingAlgorithms.java:56-91 | the array ends sorted ascending |
| Selection.SelectionSortInRange | SortingAlgorithms.java:60-85 | on a non-empty input every highlight lies inside its snapshot |
| Selection.SelectionSortEmpty | SortingAlgorithms.java:84-88 | on the empty input the trace is SORTED [-1] then COMPLETED, and the highlight -1 is out of range |
| Selection.SelectionSortEnds | SortingAlgorithms.java:87-88 | exactly one COMPLETED step, last, with no highlights and the final array |
| Selection.SelectionSortCompares | SortingAlgorithms.java:60-69 | exactly n(n-1)/2 COMPARE steps, whatever the input |
| Selection.SelectionSortSwaps | SortingAlgorithms.java:71-78 | fewer SWAP steps than elements (none on the empty input) |
| Selection.SelectionSortMarks | SortingAlgorithms.java:80-85 | n SORTED steps, or one (for position -1) on the empty input |
| Insertion.InsertionSort | SortingAlgorithms.java:93-136 | the array left behind and the steps returned are those of the reference run InsertionRun |
| Insertion.InsertionSortReplays | SortingAlgorithms.java:93-136 | the steps replay the array's history; the result is a permutation of the input |
| Insertion.InsertionSortSorts | SortingAlgorithms.java:93-136 | the array ends sorted ascending |
| Insertion.InsertionSortInRange | SortingAlgorithms.java:98-129 | on a non-empty input every highlight lies inside its snapshot |
| Insertion.InsertionSortEmpty | SortingAlgorithms.java:97-133 | on the empty input the trace is SORTED [0] over an empty snapshot, then COMPLETED |
| Insertion.InsertionSortEnds | SortingAlgorithms.java:132-133 | exactly one COMPLETED step, last, with no highlights and the final array |
| Insertion.InsertionSortBalance | SortingAlgorithms.java:109-119 | as many COMPARE steps as SHIFT steps |
| Insertion.InsertionSortShifts | SortingAlgorithms.java:109-119 | at most n(n-1)/2 SHIFT steps |
| Insertion.InsertionSortPasses | SortingAlgorithms.java:98-129 | n-1 CURRENT and n-1 INSERT steps, and n SORTED steps |
| Insertion.InsertionSortSortedInput | SortingAlgorithms.java:101-130 | a sorted input is left unchanged with no COMPARE and no SHIFT step |
| MergeSorting.MergeSort | SortingAlgorithms.java:138-146 | the array left behind and the steps returned are those of the reference run MergeSortRun |
| MergeSorting.MergeSortHelper | SortingAlgorithms.java:148-160 | the helper's effect on array and steps is the reference Sorting of left..right |
| MergeSorting.Merge | SortingAlgorithms.java:162-211 | merge's effect on array and steps is the reference MergeRange |
| Merging.MergeSortTrace | SortingAlgorithms.java:138-211 | the steps replay the array's history, every highlight is in range, and they end in one COMPLETED step |
| Merging.MergeSortResult | SortingAlgorithms.java:138-160 | the result is sorted and a permutation of the input |
| Merging.MSortSorts | SortingAlgorithms.java:148-160 | the helper leaves left..right sorted and a permutation of what was there, and nothing else changed |
| Merging.MergeRangeSorts | SortingAlgorithms.java:162-211 | merging two sorted halves leaves left..right sorted and a permutation, the rest untouched, and MERGED shows that array |
| Merging.MergeRangeSteps | SortingAlgorithms.java:166-210 | a merge appends its steps, opening with MERGE_START and closing with MERGED over the whole range |
| Merging.MergeRangeCompares | SortingAlgorithms.java:172-188 | merging w elements compares at most w-1 times |
| Merging.CombineSorted | SortingAlgorithms.java:172-206 | the merge of two sorted sequences is sorted |
| Merging.CombinePerm | SortingAlgorithms.java:172-206 | the merge of two sequences holds exactly their elements |
| QuickSorting.QuickSort | SortingAlgorithms.java:213-220 | the array left behind and the steps returned are those of the reference run QuickSortRun |
| QuickSorting.QuickSortHelper | SortingAlgorithms.java:222-233 | the helper's effect on array and steps is the reference QSorting of low..high |
| QuickSorting.Partition | SortingAlgorithms.java:235-275 | partition's effect and returned index are those of the reference Partition |
| Quick.PartitionSplits | SortingAlgorithms.java:235-275 | the pivot ends at the returned index, elements at most the pivot before it and larger ones after it, within low..high, the rest untouched |
| Quick.PartitionCount | SortingAlgorithms.java:237-272 | one PIVOT_SELECT, high-low COMPAREs, a PIVOT_FINAL only when the pivot moves, one SORTED |
| Quick.PartitionSwaps | SortingAlgorithms.java:242-258 | at most one SWAP per element found at most the pivot |
| Quick.QSortingSorts | SortingAlgorithms.java:222-233 | the helper leaves low..high sorted and a permutation of what was there, and nothing else changed |
| Quick.QuickSortTrace | SortingAlgorithms.java:213-275 | the steps replay the array's history, every highlight is in range, and they end in one COMPLETED step |
| Quick.QuickSortResult | SortingAlgorithms.java:213-233 | the result is sorted and a permutation of the input |
| Bars.RefreshedKept | BarVisualizer.java:70-75 | rebuilding n bars paints exactly the sorted ones SORTED and keeps the invariant |
| Bars.MarkedKept | BarVisualizer.java:147-152 | marking keeps the invariant and adds the index to the sorted set only when it is in range |
| Bars.MarkedAllIs | BarVisualizer.java:154-160 | marking a list adds exactly its in-range members, paints them SORTED and leaves every other bar as it was |
| Bars.HighlightedSpares | BarVisualizer.java:94-106 | highlighting never repaints a sorted bar, paints the listed unsorted ones, and rests the others |
| Bars.SweptAll | AnimationManager.java:106-119 | after the completion sweep every bar is sorted and painted SORTED, and the sorted set grows by exactly the bars |
| Bars.BarVisualizer.constructor | BarVisualizer.java:19-26 | no bars and nothing sorted |
| Bars.BarVisualizer.UpdateVisualization | BarVisualizer.java:32-92 | one bar per element (none for a null or empty array), each at its resting fill; the sorted set is kept |
| Bars.BarVisualizer.HighlightBars | BarVisualizer.java:94-106 | a null list changes nothing; otherwise bars go back to rest and the listed in-range unsorted bars take the colour |
| Bars.BarVisualizer.ResetColors | BarVisualizer.java:108-116 | every bar at its resting fill |
| Bars.BarVisualizer.MarkSorted | BarVisualizer.java:147-152 | an in-range index is painted SORTED and added to the set; others change nothing |
| Bars.BarVisualizer.MarkSortedAll | BarVisualizer.java:154-160 | a null list changes nothing; otherwise each index is marked in turn |
| Bars.BarVisualizer.ResetAll | BarVisualizer.java:162-167 | nothing sorted, every bar LIGHTBLUE |
| Bars.BarVisualizer.UpdateBarsFromArray | BarVisualizer.java:170-195 | whichever branch runs, the bars end as the rebuilt view for the new length; it throws exactly when an empty array meets no bars, before anything changes |
| Bars.BarVisualizer.IsSorted | BarVisualizer.java:197-199 | true exactly when the index is in the sorted set |
| Bars.BarVisualizer.GetBarCount | BarVisualizer.java:201-203 | the number of bars |
| Tracker.ListingOf | CodeTracker.java:57-137 | the five listings have 11, 9, 9, 19 and 15 lines; an unknown name has none |
| Tracker.CodeTracker.constructor | CodeTracker.java:19-23 | the Bubble Sort listing is loaded and nothing is highlighted |
| Tracker.CodeTracker.LoadAlgorithmCode | CodeTracker.java:139-156 | the labels are the listing's lines numbered from 1, none lit, and the index is -1 |
| Tracker.CodeTracker.HighlightLine | CodeTracker.java:190-212 | the old line is unlit; an in-range line is lit and becomes current; an out-of-range one leaves the index as it was |
| Tracker.StaleHighlight | CodeTracker.java:190-212 | after highlighting an out-of-range line no label is lit, though the index still names the old line |
| Tracker.CodeTracker.ClearHighlight | CodeTracker.java:227-237 | the current line is unlit, no label is lit, and the index is -1 |
| Tracker.CodeTracker.GetCurrentAlgorithm | CodeTracker.java:243-245 | the loaded algorithm's name |
| Tracker.CodeTracker.GetCurrentLineIndex | CodeTracker.java:247-249 | the current index, -1 or a line of the listing |
| Statistics.IncSteps | SortingStatistics.java:32-34 | ++ adds one below the 32-bit maximum and wraps to the minimum at it |
| Statistics.ElapsedExact | SortingStatistics.java:39 | for non-negative times the elapsed time is end - start, and 0 when they are equal |
| Statistics.SortingStatistics.constructor | SortingStatistics.java:11-14 | the name is kept and every counter and time is 0 |
| Statistics.SortingStatistics.Reset | SortingStatistics.java:16-22 | every counter and time is 0 and the name is kept |
| Statistics.SortingStatistics.StartTiming | SortingStatistics.java:24-26 | the start time is the clock reading given |
| Statistics.SortingStatistics.EndTiming | SortingStatistics.java:28-30 | the end time is the clock reading given |
| Statistics.SortingStatistics.IncrementComparisons | SortingStatistics.java:32 | the comparison count goes up by one, with 32-bit wrap-around |
| Statistics.SortingStatistics.IncrementSwaps | SortingStatistics.java:33 | the swap count goes up by one, with 32-bit wrap-around |
| Statistics.SortingStatistics.IncrementArrayAccesses | SortingStatistics.java:34 | the access count goes up by one, with 32-bit wrap-around |
| Statistics.SortingStatistics.GetComparisons | SortingStatistics.java:36 | the comparison count |
| Statistics.SortingStatistics.GetSwaps | SortingStatistics.java:37 | the swap count |
| Statistics.SortingStatistics.GetArrayAccesses | SortingStatistics.java:38 | the access count |
| Statistics.SortingStatistics.GetExecutionTime | SortingStatistics.java:39 | end - start with 64-bit wrap-around; 0 right after a reset |
| Statistics.SortingStatistics.GetAlgorithmName | SortingStatistics.java:40 | the name given at construction |
| Animation.Interval | AnimationManager.java:30 | the interval is the larger of 100 ms and 1200 ms / speed |
| Animation.ScheduleOrdered | AnimationManager.java:34-41 | frame i executes step i; the first fires after one interval and frames fire in step order, one interval apart |
| Animation.RenderKept | AnimationManager.java:52-99 | executing a step keeps the bar invariant, sizes the bars to the snapshot and never unmarks a bar |
| Animation.RenderMarks | AnimationManager.java:83-94 | a SORTED or MERGED step marks exactly its in-range indices and paints them SORTED |
| Animation.RenderCompletes | AnimationManager.java:96-98 | a COMPLETED step leaves every bar marked and painted SORTED |
| Animation.RenderEmpty | AnimationManager.java:52-99 | a step with an empty snapshot, executed over no bars, leaves the view as it was |
| Animation.RenderHighlightOnly | AnimationManager.java:62-81 | COMPARE, SWAP, SHIFT, MERGE_PLACE and PIVOT_SELECT mark nothing |
| Animation.PlayedKept | AnimationManager.java:52-99 | playing any sequence of steps keeps the bar invariant and never unmarks a bar |
| Animation.PlayedCompletes | AnimationManager.java:52-119 | playing a trace that ends in COMPLETED leaves every bar of the last snapshot marked and painted SORTED |
| Animation.AnimationManager.constructor | AnimationManager.java:10-14 | no timeline, no steps, no view, not paused, index 0 |
| Animation.PauseThenPlay | AnimationManager.java:121-129 | pause() then play() brings a running timeline back to running with its frames; pause() leaves a paused or stopped timeline alone; play() runs any timeline except a stopped one with no frames |
| Animation.AnimationManager.PlayStepsWithCodeTracking | AnimationManager.java:22-50 | keeps the steps and view, resets index and pause, and schedules one frame per step at interval × (i+1); the timeline runs, except with no steps, when it stays stopped and finishes at once |
| Animation.AnimationManager.ExecuteStep | AnimationManager.java:52-104 | an index past the end does nothing; otherwise the index moves to it and the bars show Render of the step; the step goes to the callback unless the view threw on an empty snapshot over no bars, which leaves the view as it was |
| Animation.AnimationManager.CreateCompletionAnimation | AnimationManager.java:106-119 | one sweep frame per bar at 30 × i ms, and the bars end swept: every one sorted |
| Animation.AnimationManager.PauseAnimation | AnimationManager.java:121-129 | with a timeline the pause flag toggles, and the timeline gets pause() when the flag was clear and play() when it was set; without one nothing changes |
| Animation.AnimationManager.StopAnimation | AnimationManager.java:131-137 | the timeline stops, not paused, index 0 |
| Animation.AnimationManager.IsPaused | AnimationManager.java:143-145 | the pause flag |
| Animation.AnimationManager.GetCurrentStepIndex | AnimationManager.java:147-149 | the index, 0 or a valid step |
| Animation.AnimationManager.GetTotalSteps | AnimationManager.java:151-153 | the number of steps, 0 before any playback |
| Controller.CodeLineForStep | VisualizerController.java:155-206 | -1 exactly for an unknown algorithm; otherwise a line of that algorithm's listing |
| Controller.GeneratedSorts | VisualizerController.java:114-130 | an unknown name gives no steps; a known one replays from the input and ends in one COMPLETED step over a sorted permutation of it |
| Controller.GeneratedEmpty | VisualizerController.java:112-130 | the generated trace is empty exactly when the algorithm name is unknown |
| Controller.GeneratedArraySorted | VisualizerController.java:114-130 | an unknown name leaves the array as it was; a known generator leaves a sorted permutation of it, which is the array its COMPLETED step shows |
| Controller.Generate | VisualizerController.java:114-130 | the switch's steps are the named generator's reference trace of the array, and the array ends as that run leaves it (unchanged for an unknown name) |
| Controller.GenerateOnCopy | VisualizerController.java:111-130 | the steps are generated from the array's contents, and the copy returned is the array that generator leaves |
| Controller.Clone | VisualizerController.java:111 | a fresh array with the same contents |
| Controller.Shuffle | VisualizerController.java:76-80 | the shuffled list is a permutation of the array |
| Controller.Store | VisualizerController.java:81-83 | the array holds the list |
| Controller.PlaybackEndsSorted | VisualizerController.java:114-134 | playing a known algorithm's whole trace leaves one bar per element, every one sorted and painted SORTED |
| Controller.VisualizerController.constructor | VisualizerController.java:24-48 | fresh parts, not running, no code panel, and a random array of 50 elements in [10, 400) shown at rest |
| Controller.VisualizerController.SetCodeTracker | VisualizerController.java:54-56 | the code panel is the one given |
| Controller.VisualizerController.SetArraySize | VisualizerController.java:58-63 | while sorting nothing changes, whatever the size; otherwise a fresh random array of the new size is shown and the status says so |
| Controller.VisualizerController.GenerateRandomArray | VisualizerController.java:65-72 | a fresh array of arraySize elements in [10, 400), shown at rest, and the status says so |
| Controller.VisualizerController.ShuffleArray | VisualizerController.java:74-87 | while sorting nothing changes; otherwise the array becomes a permutation of itself and is shown |
| Controller.VisualizerController.ResetArray | VisualizerController.java:89-101 | playback is stopped if running (the manager's steps and view kept), nothing is sorted, every bar LIGHTBLUE, the lit code label darkened with the listing otherwise kept, status ready |
| Controller.VisualizerController.StartSorting | VisualizerController.java:103-154 | while sorting nothing changes; otherwise the array is untouched, the bars are reset, and the named generator's trace of the array is scheduled; for an unknown name the empty timeline finishes at once, so the run is already complete (not running, status completed, highlight cleared when code is shown) |
| Controller.VisualizerController.Launch | VisualizerController.java:132-153 | the copy is shown, the callbacks' name and flag are set and the steps played; with no steps the completion callback has run |
| Controller.VisualizerController.OnComplete | VisualizerController.java:135-142 | not running, status completed; when code is shown the lit label is darkened and the listing otherwise kept, else the code panel is untouched |
| Controller.VisualizerController.OnStepUpdate | VisualizerController.java:143-152 | the status shows the step's message; with code shown and a line for the step, the labels are re-lit as highlightLine does, and with the listing loaded the highlighted line is the step's line; otherwise the code panel is untouched |
| Controller.VisualizerController.FrameFired | AnimationManager.java:52-104 | a key frame executes its step on the bars and then, unless the view threw, the step callback updates the status and the code panel; after a throw status and code panel stay |
| Controller.VisualizerController.PauseSorting | VisualizerController.java:208-213 | while sorting, the manager's pauseAnimation runs (the flag toggles, the timeline gets pause() or play()) and the status says paused; the manager's steps and index stay; otherwise nothing changes |

## Left out

- SortingVisualizerApp.java (window layout, buttons, sliders) is not part of this model: it only wires the controls to the controller's methods.
- ColorScheme.java is not part of this model. Its colours are the enumeration `Bars.Color`.
- Real timing of the JavaFX timeline is not modelled. A timeline is its key-frame schedule and a play status. `isRunning` (AnimationManager.java:139-141) reads the timeline's `Animation.Status` and is not modelled.
- Pixel and float presentation is not modelled: bar heights and widths, value labels, the code panel's styling, `scrollToLine` and mouse hover.
- Randomness (`ThreadLocalRandom.nextInt`, `Collections.shuffle`) is a nondeterministic choice within the same bounds. The model does not claim a uniform distribution.
- The message texts (`String.format`, emoji) are not modelled. Each message is a constructor of `Steps.Message` carrying the values the text shows, and the status line is `Controller.StatusText`.
- `System.currentTimeMillis` is not modelled. StartTiming and EndTiming take the clock reading as a parameter.
- The private `swap` helper (SortingAlgorithms.java:277-287) is never called and is not modelled.
- `swapBars` (BarVisualizer.java:118-145) is never called and only changes heights and labels. It is not modelled.
- `playSteps` (AnimationManager.java:17-20) only forwards to `playStepsWithCodeTracking` and is not modelled separately.
- Animation.AnimationManager.PauseAnimation: play() on a stopped timeline restarts it from its first frame in JavaFX. The model only gives the Running status, because time within a timeline is not modelled. play() on a stopped timeline with no frames runs its onFinished handler, which the model does not run here. The controller cannot reach either case: pauseSorting acts only while sorting, and the timeline is then running or paused.
- Animation.Interval: requires a non-zero speed. Java divides by a `double`, so speed 0 gives an infinite interval. Reals are exact here, so double rounding of the key-frame times is not modelled.
- Animation.AnimationManager.CreateCompletionAnimation: applies the sweep's marks at once. The wave's frames, returned with their times, fire later in the source.
  Java never stops the wave's timeline: `stopAnimation` stops only the playback timeline. So after a reset or a new start within 30·(n−1) ms of the COMPLETED step, Java's pending wave frames re-mark bars SORTED. The model's ResetArray and StartSorting leave a cleared view, because its sweep has already finished.
- Controller.VisualizerController.FrameFired: models the timeline firing a key frame. The two callbacks are the controller's methods, so the manager holds no function values.
- Quick and merge sort: the comparison counts of a whole sort are not stated. Per-call bounds are (Quick.PartitionCount, Merging.MergeRangeCompares).
- The generators' loop bodies are split into helper methods so that each proof stays small:
  - bubble sort: BubblePass and ConfirmSweep;
  - selection sort: SelectPass and FindMin;
  - insertion sort: InsertPass and ShiftLarger;
  - merge: MergeHeads, CopyLeft and CopyRight.

  The controller's switch, shuffle and clone are split out in the same way: Generate, GenerateOnCopy, Shuffle, Store and Clone. The second half of startSorting is Launch. The order of array writes and recorded steps is the source's.
- Controller.VisualizerController.SetArraySize: requires a non-negative size when not sorting. In Java a negative size then makes `new int[size]` throw NegativeArraySizeException, and that error path is not modelled. While sorting any size is accepted and ignored, as in Java.
- Bars.BarVisualizer.UpdateBarsFromArray: the NoSuchElementException that `Arrays.stream(array).max().getAsInt()` throws on an empty array over no bars (BarVisualizer.java:176) is the result `thrown`. ExecuteStep then returns no step, so the step callback is skipped. What the JavaFX timeline does with an exception thrown in a key-frame handler is not modelled. The application's size slider starts at 10 (SortingVisualizerApp.java:195), but the controller's setArraySize accepts 0.
- Steps.SortStep: a datatype value, so its getters cannot hand out the step's own arrays. In Java `getHighlightIndices` and `getArrayState` (SortStep.java:24-25) return the internal arrays without copying, and a caller could change a recorded step through them. No code in the model or the source does so.
- Steps.NewStep: models the copying constructor on live arrays. The generators build steps from `a[..]` directly, which is the same copy of the array at that moment.
