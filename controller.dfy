/** VisualizerController: the state machine behind the buttons.  It owns the
    array shown, runs a generator on a copy of it, and hands the steps to the
    animation manager; the two playback callbacks are its methods OnComplete
    and OnStepUpdate.  Randomness is a nondeterministic choice within the
    bounds the source draws from. */
module Controller {
  import opened Wrappers
  import opened Steps
  import opened Bars
  import opened Animation
  import opened Tracker
  import Bubble
  import Selection
  import Insertion
  import Merging
  import MergeSorting
  import Quick
  import QuickSorting

  /** The status line, without its wording and emoji. */
  datatype StatusText =
    | ReadyToSort | ArrayGenerated(size: int) | ArrayShuffled | Starting(algorithm: string)
    | SortingCompleted | SortingPaused | Describing(description: Message)

  /** getCodeLineForStep: the pseudo-code line that shows a step of
      `algorithm`, or -1 for a name the controller does not know. */
  function CodeLineForStep(step: SortStep, algorithm: string): (line: int)
    ensures algorithm !in Listings <==> line == -1
    ensures algorithm in Listings ==> 0 <= line < |ListingOf(algorithm)|
  {
    match algorithm
    case "Bubble Sort" =>
      (match step.stepType
       case Compare => 5
       case Swap => 6
       case Sorted => 9
       case _ => 2)
    case "Selection Sort" =>
      (match step.stepType
       case Current => 2
       case Compare => 5
       case Select => 6
       case Swap => 7
       case _ => 3)
    case "Insertion Sort" =>
      (match step.stepType
       case Current => 2
       case Compare => 4
       case Shift => 5
       case Insert => 7
       case _ => 1)
    case "Merge Sort" =>
      (match step.stepType
       case Divide => 2
       case MergePrep => 8
       case Compare => 11
       case MergePlace => 12
       case _ => 3)
    case "Quick Sort" =>
      (match step.stepType
       case PartitionStart => 2
       case PivotSelect => 7
       case Compare => 10
       case Swap => 12
       case PivotFinal => 13
       case _ => 1)
    case _ => -1
  }

  /** The steps startSorting hands to playback for `algorithm` on an array
      holding `s`: the generator's trace, or none for an unknown name. */
  function GeneratedSteps(algorithm: string, s: seq<int>): seq<SortStep> {
    if algorithm == "Bubble Sort" then Bubble.BubbleRun(s).steps
    else if algorithm == "Selection Sort" then Selection.SelectionRun(s).steps
    else if algorithm == "Insertion Sort" then Insertion.InsertionRun(s).steps
    else if algorithm == "Merge Sort" then Merging.MergeSortRun(s).steps
    else if algorithm == "Quick Sort" then Quick.QuickSortRun(s).steps
    else []
  }

  /** The array startSorting's generator leaves behind when it sorts `s`:
      the reference run's final array, or `s` itself for an unknown name. */
  function GeneratedArray(algorithm: string, s: seq<int>): seq<int> {
    if algorithm == "Bubble Sort" then Bubble.BubbleRun(s).arr
    else if algorithm == "Selection Sort" then Selection.SelectionRun(s).arr
    else if algorithm == "Insertion Sort" then Insertion.InsertionRun(s).arr
    else if algorithm == "Merge Sort" then Merging.MergeSortRun(s).arr
    else if algorithm == "Quick Sort" then Quick.QuickSortRun(s).arr
    else s
  }

  /** A known generator leaves a sorted permutation of the input, which is
      the array its COMPLETED step shows; an unknown name leaves the input. */
  lemma GeneratedArraySorted(algorithm: string, s: seq<int>)
    ensures var r := GeneratedArray(algorithm, s);
            var st := GeneratedSteps(algorithm, s);
            (algorithm !in Listings ==> r == s) &&
            (algorithm in Listings ==>
               SortedSeq(r) && multiset(r) == multiset(s) && |st| > 0 && st[|st| - 1].arrayState == r)
  {
    GeneratedSorts(algorithm, s);
    if algorithm == "Bubble Sort" {
      Bubble.BubbleSortEnds(s);
    } else if algorithm == "Selection Sort" {
      Selection.SelectionSortEnds(s);
    } else if algorithm == "Insertion Sort" {
      Insertion.InsertionSortEnds(s);
    } else if algorithm == "Merge Sort" {
      Merging.MergeSortTrace(s);
    } else if algorithm == "Quick Sort" {
      Quick.QuickSortTrace(s);
    }
  }

  /** Every algorithm with a listing has a generator: its trace replays from
      the array, ends in its one COMPLETED step, and that step shows the
      array's elements in ascending order.  Any other name plays nothing. */
  lemma GeneratedSorts(algorithm: string, s: seq<int>)
    ensures var st := GeneratedSteps(algorithm, s);
            (algorithm !in Listings ==> st == []) &&
            (algorithm in Listings ==>
               |st| > 0 && Replays(s, st) &&
               st[|st| - 1].stepType == Completed && Count(st, Completed) == 1 &&
               SortedSeq(st[|st| - 1].arrayState) &&
               multiset(st[|st| - 1].arrayState) == multiset(s))
  {
    if algorithm == "Bubble Sort" {
      Bubble.BubbleSortReplays(s);
      Bubble.BubbleSortEnds(s);
      Bubble.BubbleSortSorts(s);
    } else if algorithm == "Selection Sort" {
      Selection.SelectionSortReplays(s);
      Selection.SelectionSortEnds(s);
      Selection.SelectionSortSorts(s);
    } else if algorithm == "Insertion Sort" {
      Insertion.InsertionSortReplays(s);
      Insertion.InsertionSortEnds(s);
      Insertion.InsertionSortSorts(s);
    } else if algorithm == "Merge Sort" {
      Merging.MergeSortTrace(s);
      Merging.MergeSortResult(s);
    } else if algorithm == "Quick Sort" {
      Quick.QuickSortTrace(s);
      Quick.QuickSortResult(s);
    }
  }

  /** A generator's trace is empty exactly when the name is unknown. */
  lemma GeneratedEmpty(algorithm: string, s: seq<int>)
    ensures GeneratedSteps(algorithm, s) == [] <==> algorithm !in Listings
  {
    GeneratedSorts(algorithm, s);
  }

  /** array.clone(). */
  method Clone(a: array<int>) returns (b: array<int>)
    ensures fresh(b) && b[..] == a[..]
  {
    b := new int[a.Length];
    for i := 0 to a.Length
      invariant b[..i] == a[..i]
    {
      b[i] := a[i];
      assert b[..i + 1] == b[..i] + [b[i]];
    }
  }

  /** Playing the whole trace of a known algorithm on `s` ends with one bar
      per element, every one marked and painted SORTED. */
  lemma PlaybackEndsSorted(v: View, algorithm: string, s: seq<int>)
    requires algorithm in Listings
    ensures var w := Played(v, GeneratedSteps(algorithm, s));
            |w.bars| == |s| && forall k :: 0 <= k < |s| ==> k in w.sorted && w.bars[k] == SortedGreen
  {
    var st := GeneratedSteps(algorithm, s);
    GeneratedSorts(algorithm, s);
    var last := st[|st| - 1].arrayState;
    assert |last| == |s| by {
      assert |multiset(last)| == |multiset(s)|;
    }
    PlayedCompletes(v, st);
  }

  /** startSorting's switch: the generator named `algorithm` sorts `a` in
      place and returns its steps; an unknown name returns none and leaves
      `a` as it is. */
  method Generate(algorithm: string, a: array<int>) returns (steps: seq<SortStep>)
    modifies a
    ensures steps == GeneratedSteps(algorithm, old(a[..]))
    ensures a[..] == GeneratedArray(algorithm, old(a[..]))
  {
    steps := [];
    if algorithm == "Bubble Sort" {
      steps := Bubble.BubbleSort(a);
    } else if algorithm == "Selection Sort" {
      steps := Selection.SelectionSort(a);
    } else if algorithm == "Insertion Sort" {
      steps := Insertion.InsertionSort(a);
    } else if algorithm == "Merge Sort" {
      steps := MergeSorting.MergeSort(a);
    } else if algorithm == "Quick Sort" {
      steps := QuickSorting.QuickSort(a);
    }
  }

  /** startSorting's work on a copy: the named generator sorts a clone of
      `a`, and the clone's final contents come back with the steps. */
  method GenerateOnCopy(algorithm: string, a: array<int>) returns (steps: seq<SortStep>, copy: seq<int>)
    ensures steps == GeneratedSteps(algorithm, a[..]) && copy == GeneratedArray(algorithm, a[..])
    ensures |copy| == a.Length
  {
    var arrayCopy := Clone(a);
    steps := Generate(algorithm, arrayCopy);
    copy := arrayCopy[..];
    GeneratedArraySorted(algorithm, a[..]);
  }

  /** Collections.shuffle: from the last position down to the second, each
      position is swapped with one at or below it, chosen at random. */
  method Shuffle(list: seq<int>) returns (r: seq<int>)
    ensures |r| == |list| && multiset(r) == multiset(list)
  {
    r := list;
    var i := |r|;
    while i > 1
      invariant 0 <= i <= |r| && |r| == |list|
      invariant multiset(r) == multiset(list)
    {
      var pick :| 0 <= pick < i;
      r := r[i - 1 := r[pick]][pick := r[i - 1]];
      i := i - 1;
    }
  }

  /** Writes `list` back into `a`, position by position. */
  method Store(a: array<int>, list: seq<int>)
    requires |list| == a.Length
    modifies a
    ensures a[..] == list
  {
    for k := 0 to a.Length
      invariant a[..k] == list[..k]
    {
      a[k] := list[k];
      assert a[..k + 1] == a[..k] + [list[k]] && list[..k + 1] == list[..k] + [list[k]];
    }
    assert a[..] == a[..a.Length] && list == list[..a.Length];
  }

  /** Every element drawn from nextInt(10, 400). */
  predicate Drawn(s: seq<int>) {
    forall k :: 0 <= k < |s| ==> 10 <= s[k] < 400
  }

  class VisualizerController {
    /** The `array` field: the elements shown. */
    var elements: array<int>
    var arraySize: int
    var barVisualizer: BarVisualizer
    var animationManager: AnimationManager
    var codeTracker: CodeTracker?
    var statusText: StatusText
    var isRunning: bool
    /** The algorithm name and show-code flag of the last startSorting,
        which its callbacks capture. */
    var algorithm: string
    var showCode: bool

    /** Everything but the array: the parts are valid and playback shows
        its steps on this controller's bars. */
    predicate Parts()
      reads this, barVisualizer, animationManager, animationManager.visualizer, codeTracker
    {
      0 <= arraySize && barVisualizer.Valid() && animationManager.Valid() &&
      (animationManager.visualizer == null || animationManager.visualizer == barVisualizer) &&
      (codeTracker != null ==> codeTracker.Valid())
    }

    predicate Valid()
      reads this, barVisualizer, animationManager, animationManager.visualizer, codeTracker
    {
      Parts() && elements.Length == arraySize
    }

    /** A controller with fresh parts, no code panel, not running, and a
        random array of 50 elements shown. */
    constructor ()
      ensures Valid() && !isRunning && arraySize == 50 && codeTracker == null
      ensures fresh(elements) && Drawn(elements[..])
      ensures barVisualizer.Shown() == View(AtRest(50, {}), {})
      ensures statusText == ArrayGenerated(50)
    {
      barVisualizer := new BarVisualizer();
      animationManager := new AnimationManager();
      codeTracker := null;
      statusText := ReadyToSort;
      isRunning := false;
      arraySize := 50;
      elements := new int[0];
      algorithm := "";
      showCode := false;
      new;
      GenerateRandomArray();
    }

    method SetCodeTracker(tracker: CodeTracker?)
      requires Valid() && (tracker != null ==> tracker.Valid())
      modifies this`codeTracker
      ensures Valid() && codeTracker == tracker
    {
      codeTracker := tracker;
    }

    /** generateRandomArray: a fresh array of arraySize values, each in
        [10, 400), shown at rest. */
    method GenerateRandomArray()
      requires Parts()
      modifies this`elements, this`statusText, barVisualizer
      ensures Valid() && fresh(elements) && Drawn(elements[..])
      ensures barVisualizer.Shown() == Refreshed(old(barVisualizer.Shown()), arraySize)
      ensures statusText == ArrayGenerated(arraySize)
    {
      var a := new int[arraySize];
      for i := 0 to arraySize
        modifies a
        invariant Drawn(a[..i])
      {
        var value :| 10 <= value < 400;
        a[i] := value;
        assert a[..i + 1] == a[..i] + [value];
      }
      assert a[..] == a[..arraySize];
      elements := a;
      barVisualizer.UpdateVisualization(Some(elements[..]));
      statusText := ArrayGenerated(arraySize);
    }

    /** setArraySize: ignored while sorting; otherwise a new random array
        of the new size. */
    method SetArraySize(size: int)
      requires Valid() && (isRunning || 0 <= size)
      modifies this`arraySize, this`elements, this`statusText, barVisualizer
      ensures Valid()
      ensures old(isRunning) ==>
                arraySize == old(arraySize) && elements == old(elements) &&
                statusText == old(statusText) && barVisualizer.Shown() == old(barVisualizer.Shown())
      ensures !old(isRunning) ==>
                arraySize == size && fresh(elements) && elements.Length == size && Drawn(elements[..]) &&
                barVisualizer.Shown() == Refreshed(old(barVisualizer.Shown()), size) &&
                statusText == ArrayGenerated(size)
    {
      if !isRunning {
        arraySize := size;
        GenerateRandomArray();
      }
    }

    /** shuffleArray: ignored while sorting; otherwise the same elements in
        an order Collections.shuffle picks (each position i from the last
        down swapped with a position below it chosen at random). */
    method ShuffleArray()
      requires Valid()
      modifies elements, this`statusText, barVisualizer
      ensures Valid()
      ensures old(isRunning) ==>
                elements[..] == old(elements[..]) && statusText == old(statusText) &&
                barVisualizer.Shown() == old(barVisualizer.Shown())
      ensures !old(isRunning) ==>
                multiset(elements[..]) == multiset(old(elements[..])) && statusText == ArrayShuffled &&
                barVisualizer.Shown() == Refreshed(old(barVisualizer.Shown()), elements.Length)
    {
      if isRunning {
        return;
      }
      var list := Shuffle(elements[..]);
      Store(elements, list);
      barVisualizer.UpdateVisualization(Some(elements[..]));
      statusText := ArrayShuffled;
    }

    /** resetArray: stops playback if sorting, clears the sorted marks and
        colours, and clears the code highlight. */
    method ResetArray()
      requires Valid()
      modifies this`isRunning, this`statusText, barVisualizer
      modifies animationManager`timeline, animationManager`isPaused, animationManager`currentStepIndex
      modifies codeTracker
      ensures Valid() && !isRunning && statusText == ReadyToSort
      ensures barVisualizer.Shown() == Cleared(old(barVisualizer.Shown()))
      ensures animationManager.steps == old(animationManager.steps) &&
              animationManager.visualizer == old(animationManager.visualizer)
      ensures old(isRunning) ==>
                !animationManager.isPaused && animationManager.currentStepIndex == 0 &&
                animationManager.timeline ==
                  if old(animationManager.timeline).Some? then Some(old(animationManager.timeline).value.(status := Stopped)) else None
      ensures !old(isRunning) ==> unchanged(animationManager)
      ensures codeTracker != null ==>
                codeTracker.currentLineIndex == -1 &&
                codeTracker.codeLabels == Restyled(old(codeTracker.codeLabels), old(codeTracker.currentLineIndex), false)
      ensures codeTracker != null ==> codeTracker.currentAlgorithm == old(codeTracker.currentAlgorithm)
    {
      if isRunning {
        animationManager.StopAnimation();
        isRunning := false;
      }
      barVisualizer.ResetAll();
      if codeTracker != null {
        codeTracker.ClearHighlight();
      }
      statusText := ReadyToSort;
    }

    /** startSorting: ignored while sorting.  Otherwise the bars are reset,
        the generator for `algorithm` runs on a copy of the array (the array
        itself is untouched), the copy is shown, and its steps are played.
        An unknown name gives no steps, so the timeline finishes at once and
        the completion callback has run before startSorting returns. */
    method StartSorting(algorithm: string, speed: real, showCode: bool)
      requires Valid() && speed != 0.0
      modifies this`isRunning, this`statusText, this`algorithm, this`showCode
      modifies barVisualizer, animationManager, codeTracker
      ensures Valid() && elements == old(elements) && elements[..] == old(elements[..])
      ensures old(isRunning) ==>
                isRunning && statusText == old(statusText) && this.algorithm == old(this.algorithm) &&
                this.showCode == old(this.showCode) &&
                unchanged(barVisualizer) && unchanged(animationManager) &&
                (codeTracker != null ==> unchanged(codeTracker))
      ensures !old(isRunning) ==>
                var steps := GeneratedSteps(algorithm, elements[..]);
                (isRunning <==> algorithm in Listings) &&
                statusText == (if steps == [] then SortingCompleted else Starting(algorithm)) &&
                this.algorithm == algorithm && this.showCode == showCode &&
                barVisualizer.Shown() == View(AtRest(elements.Length, {}), {}) &&
                animationManager.steps == Some(steps) && animationManager.visualizer == barVisualizer &&
                animationManager.currentStepIndex == 0 && !animationManager.isPaused &&
                animationManager.timeline ==
                  Some(Timeline(Schedule(|steps|, Interval(speed)), if steps == [] then Stopped else Running))
      ensures !old(isRunning) && codeTracker != null ==>
                codeTracker.currentAlgorithm == old(codeTracker.currentAlgorithm) &&
                if algorithm !in Listings && showCode then
                  codeTracker.currentLineIndex == -1 &&
                  codeTracker.codeLabels == Restyled(old(codeTracker.codeLabels), old(codeTracker.currentLineIndex), false)
                else
                  unchanged(codeTracker)
    {
      if isRunning {
        return;
      }
      barVisualizer.ResetAll();
      isRunning := true;
      statusText := Starting(algorithm);
      var steps, copy := GenerateOnCopy(algorithm, elements);
      GeneratedEmpty(algorithm, elements[..]);
      Launch(algorithm, steps, copy, speed, showCode);
    }

    /** The second half of startSorting, once the steps are generated: the
        sorted copy is shown, the callbacks capture the name and the
        show-code flag, and the steps are played.  With no steps the
        completion callback runs at once. */
    method Launch(algorithm: string, steps: seq<SortStep>, copy: seq<int>, speed: real, showCode: bool)
      requires Valid() && speed != 0.0 && isRunning
      modifies this`isRunning, this`statusText, this`algorithm, this`showCode
      modifies barVisualizer, animationManager, codeTracker
      ensures Valid()
      ensures (isRunning <==> steps != []) &&
              statusText == (if steps == [] then SortingCompleted else old(statusText)) &&
              this.algorithm == algorithm && this.showCode == showCode &&
              barVisualizer.Shown() == Refreshed(old(barVisualizer.Shown()), |copy|) &&
              animationManager.steps == Some(steps) && animationManager.visualizer == barVisualizer &&
              animationManager.currentStepIndex == 0 && !animationManager.isPaused &&
              animationManager.timeline ==
                Some(Timeline(Schedule(|steps|, Interval(speed)), if steps == [] then Stopped else Running))
      ensures codeTracker != null ==>
                codeTracker.currentAlgorithm == old(codeTracker.currentAlgorithm) &&
                if steps == [] && showCode then
                  codeTracker.currentLineIndex == -1 &&
                  codeTracker.codeLabels == Restyled(old(codeTracker.codeLabels), old(codeTracker.currentLineIndex), false)
                else
                  unchanged(codeTracker)
    {
      barVisualizer.UpdateVisualization(Some(copy));
      this.algorithm := algorithm;
      this.showCode := showCode;
      var finished := animationManager.PlayStepsWithCodeTracking(steps, barVisualizer, speed);
      if finished {
        OnComplete();
      }
    }

    /** The completion callback: no longer sorting, and the code highlight
        cleared when code is shown. */
    method OnComplete()
      requires Valid()
      modifies this`isRunning, this`statusText, codeTracker
      ensures Valid() && !isRunning && statusText == SortingCompleted
      ensures codeTracker != null && showCode ==>
                codeTracker.currentLineIndex == -1 &&
                codeTracker.codeLabels == Restyled(old(codeTracker.codeLabels), old(codeTracker.currentLineIndex), false)
      ensures !showCode && codeTracker != null ==> unchanged(codeTracker)
      ensures codeTracker != null ==> codeTracker.currentAlgorithm == old(codeTracker.currentAlgorithm)
    {
      isRunning := false;
      statusText := SortingCompleted;
      if codeTracker != null && showCode {
        codeTracker.ClearHighlight();
      }
    }

    /** The step callback: the status shows the step's description and,
        when code is shown, the step's pseudo-code line is highlighted.
        With the sorting algorithm's listing loaded, that line is exactly
        the highlighted one. */
    method OnStepUpdate(step: SortStep)
      requires Valid()
      modifies this`statusText, codeTracker
      ensures Valid() && statusText == Describing(step.description)
      ensures codeTracker != null && !(showCode && CodeLineForStep(step, algorithm) >= 0) ==> unchanged(codeTracker)
      ensures showCode && codeTracker != null && CodeLineForStep(step, algorithm) >= 0 ==>
                var line := CodeLineForStep(step, algorithm);
                codeTracker.currentLineIndex ==
                  (if line < |codeTracker.codeLabels| then line else old(codeTracker.currentLineIndex)) &&
                codeTracker.codeLabels ==
                  Restyled(Restyled(old(codeTracker.codeLabels), old(codeTracker.currentLineIndex), false), line, true)
      ensures showCode && codeTracker != null && algorithm in Listings &&
              old(codeTracker.codeLabels) == Labels(ListingOf(algorithm)) ==>
                codeTracker.currentLineIndex == CodeLineForStep(step, algorithm)
      ensures codeTracker != null ==> codeTracker.currentAlgorithm == old(codeTracker.currentAlgorithm)
    {
      statusText := Describing(step.description);
      if showCode && codeTracker != null {
        var lineIndex := CodeLineForStep(step, algorithm);
        if lineIndex >= 0 {
          codeTracker.HighlightLine(lineIndex);
        }
      }
    }

    /** The playback timeline reaching the frame of step `stepIndex`:
        executeStep, then the step callback when it hands over a step (it
        does not when the view throws on an empty snapshot over no bars). */
    method FrameFired(stepIndex: nat)
      requires Valid() && animationManager.steps.Some?
      modifies animationManager`currentStepIndex, barVisualizer, this`statusText
      modifies codeTracker
      ensures Valid()
      ensures var steps := animationManager.steps.value;
              stepIndex < |steps| ==>
                animationManager.currentStepIndex == stepIndex &&
                barVisualizer.Shown() == Render(old(barVisualizer.Shown()), steps[stepIndex])
      ensures var steps := animationManager.steps.value;
              stepIndex < |steps| && MaxThrows(old(barVisualizer.bars), steps[stepIndex].arrayState) ==>
                statusText == old(statusText) && (codeTracker != null ==> unchanged(codeTracker))
      ensures var steps := animationManager.steps.value;
              stepIndex < |steps| && !MaxThrows(old(barVisualizer.bars), steps[stepIndex].arrayState) ==>
                var line := CodeLineForStep(steps[stepIndex], algorithm);
                statusText == Describing(steps[stepIndex].description) &&
                (codeTracker != null && !(showCode && line >= 0) ==> unchanged(codeTracker)) &&
                (codeTracker != null && showCode && line >= 0 ==>
                   codeTracker.currentLineIndex ==
                     (if line < |codeTracker.codeLabels| then line else old(codeTracker.currentLineIndex)) &&
                   codeTracker.codeLabels ==
                     Restyled(Restyled(old(codeTracker.codeLabels), old(codeTracker.currentLineIndex), false), line, true))
      ensures stepIndex >= |animationManager.steps.value| ==>
                barVisualizer.Shown() == old(barVisualizer.Shown()) &&
                unchanged(animationManager) && unchanged(this) &&
                (codeTracker != null ==> unchanged(codeTracker))
      ensures codeTracker != null ==> codeTracker.currentAlgorithm == old(codeTracker.currentAlgorithm)
    {
      var update := animationManager.ExecuteStep(stepIndex);
      if update.Some? {
        OnStepUpdate(update.value);
      }
    }

    /** pauseSorting: while sorting, toggles the animation's pause. */
    method PauseSorting()
      requires Valid()
      modifies this`statusText, animationManager`timeline, animationManager`isPaused
      ensures Valid()
      ensures animationManager.steps == old(animationManager.steps) &&
              animationManager.currentStepIndex == old(animationManager.currentStepIndex)
      ensures !isRunning ==> unchanged(animationManager) && statusText == old(statusText)
      ensures isRunning ==>
                statusText == SortingPaused &&
                (old(animationManager.timeline).None? ==>
                   animationManager.timeline == None && animationManager.isPaused == old(animationManager.isPaused)) &&
                (old(animationManager.timeline).Some? ==>
                   animationManager.isPaused == !old(animationManager.isPaused) &&
                   animationManager.timeline ==
                     Some(if old(animationManager.isPaused) then AfterPlay(old(animationManager.timeline).value)
                          else AfterPause(old(animationManager.timeline).value)))
    {
      if isRunning {
        animationManager.PauseAnimation();
        statusText := SortingPaused;
      }
    }
  }
}
