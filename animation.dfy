/** AnimationManager: plays a recorded trace on a BarVisualizer.  The JavaFX
    timeline is modelled as its schedule of key frames (a time offset in
    milliseconds and the step each frame executes) and its play status;
    nothing here measures time. */
module Animation {
  import opened Wrappers
  import opened Steps
  import opened Bars

  datatype Status = Running | Paused | Stopped

  /** A key frame of the playback timeline: at `time` ms, executeStep(stepIndex). */
  datatype KeyFrame = KeyFrame(time: real, stepIndex: nat)

  datatype Timeline = Timeline(frames: seq<KeyFrame>, status: Status)

  /** Timeline.pause(): a running timeline pauses; a paused or stopped one
      is left as it is. */
  function AfterPause(t: Timeline): Timeline {
    if t.status == Running then t.(status := Paused) else t
  }

  /** Timeline.play(): a paused or stopped timeline runs, except a stopped
      one without key frames, whose cycle lasts 0 ms: it stays stopped and
      finishes at once. */
  function AfterPlay(t: Timeline): Timeline {
    if t.status == Stopped && t.frames == [] then t else t.(status := Running)
  }

  /** Whether play() on `t` finishes it at once, running its onFinished
      handler. */
  predicate FinishesAtOnce(t: Timeline) {
    t.status == Stopped && t.frames == []
  }

  /** Pausing and then playing a running timeline leaves it running, with
      the same frames; a paused or stopped timeline is not paused again. */
  lemma PauseThenPlay(t: Timeline)
    ensures t.status == Running ==> AfterPlay(AfterPause(t)) == t && AfterPause(t).status == Paused
    ensures t.status != Running ==> AfterPause(t) == t
    ensures AfterPlay(t).status == Running <==> !FinishesAtOnce(t)
    ensures AfterPause(t).frames == t.frames && AfterPlay(t).frames == t.frames
  {
  }

  /** A key frame of the completion sweep: at `time` ms, markSorted(index). */
  datatype SweepFrame = SweepFrame(time: nat, index: nat)

  /** The time between two steps for a speed factor: 1200 ms divided by the
      speed, but never below 100 ms. */
  function Interval(speed: real): (ms: real)
    requires speed != 0.0
    ensures ms >= 100.0 && ms >= 1200.0 / speed
    ensures ms == 100.0 || ms == 1200.0 / speed
  {
    if 1200.0 / speed > 100.0 then 1200.0 / speed else 100.0
  }

  /** The playback schedule of n steps: step i at interval * (i + 1). */
  function Schedule(n: nat, interval: real): seq<KeyFrame> {
    seq(n, i requires 0 <= i => Frame(interval, i))
  }

  /** The key frame of step i: executeStep(i) after i + 1 intervals. */
  function Frame(interval: real, i: nat): KeyFrame {
    KeyFrame(interval * (i + 1) as real, i)
  }

  /** The sweep over n bars: bar i at 30 * i ms. */
  function Sweep(n: nat): seq<SweepFrame> {
    seq(n, i requires 0 <= i => SweepFrame(30 * i, i))
  }

  /** Frames fire in step order, one interval apart, the first after one
      interval. */
  lemma ScheduleOrdered(n: nat, interval: real, p: nat, q: nat)
    requires interval > 0.0 && p < q < n
    ensures var s := Schedule(n, interval);
            s[p].stepIndex == p && s[q].stepIndex == q &&
            s[0].time == interval && s[p].time < s[q].time &&
            s[q].time - s[p].time == interval * (q - p) as real
  {
    var s := Schedule(n, interval);
    assert s[q].time - s[p].time == interval * (q - p) as real by {
      assert s[q].time == interval * (q + 1) as real && s[p].time == interval * (p + 1) as real;
    }
  }

  /** The bar operation executeStep applies for a step: the bars follow the
      step's snapshot, then COMPARE, SWAP, SHIFT, MERGE_PLACE and
      PIVOT_SELECT highlight in their colour, SORTED marks, MERGED
      highlights then marks, COMPLETED sweeps, and other kinds stop there. */
  function Render(v: View, step: SortStep): View {
    var r := Refreshed(v, |step.arrayState|);
    var h := step.highlightIndices;
    match step.stepType
    case Compare => Highlighted(r, h, ComparingOrange)
    case Swap => Highlighted(r, h, SwappingRed)
    case Shift => Highlighted(r, h, ShiftingPink)
    case MergePlace => Highlighted(r, h, MergingBlue)
    case PivotSelect => Highlighted(r, h, PivotCrimson)
    case Sorted => MarkedAll(r, h)
    case Merged => MarkedAll(Highlighted(r, h, MergingBlue), h)
    case Completed => Swept(r)
    case _ => r
  }

  /** Rendering a step keeps the "permanently sorted" rule and leaves one
      bar per element of its snapshot; nothing is ever unmarked. */
  lemma RenderKept(v: View, step: SortStep)
    requires Kept(v)
    ensures var w := Render(v, step);
            Kept(w) && |w.bars| == |step.arrayState| && v.sorted <= w.sorted
  {
    var r := Refreshed(v, |step.arrayState|);
    var h := step.highlightIndices;
    RefreshedKept(v, |step.arrayState|);
    match step.stepType
    case Compare => HighlightedSpares(r, h, ComparingOrange);
    case Swap => HighlightedSpares(r, h, SwappingRed);
    case Shift => HighlightedSpares(r, h, ShiftingPink);
    case MergePlace => HighlightedSpares(r, h, MergingBlue);
    case PivotSelect => HighlightedSpares(r, h, PivotCrimson);
    case Sorted => MarkedAllIs(r, h); MarkedAllKept(r, h);
    case Merged =>
      HighlightedSpares(r, h, MergingBlue);
      MarkedAllIs(Highlighted(r, h, MergingBlue), h);
      MarkedAllKept(Highlighted(r, h, MergingBlue), h);
    case Completed =>
      SweptAll(r);
      MarkedAllKept(r, Indices(|r.bars|));

    case _ =>
  }

  /** A SORTED or MERGED step marks exactly its in-range indices, and
      leaves them painted SORTED. */
  lemma RenderMarks(v: View, step: SortStep)
    requires step.stepType == Sorted || step.stepType == Merged
    ensures var w := Render(v, step);
            var n := |step.arrayState|;
            |w.bars| == n && w.sorted == v.sorted + Within(step.highlightIndices, n) &&
            forall k :: 0 <= k < n && k in step.highlightIndices ==> w.bars[k] == SortedGreen
  {
    var r := Refreshed(v, |step.arrayState|);
    var h := step.highlightIndices;
    if step.stepType == Sorted {
      MarkedAllIs(r, h);
    } else {
      MarkedAllIs(Highlighted(r, h, MergingBlue), h);
    }
  }

  /** A COMPLETED step leaves every bar marked and painted SORTED. */
  lemma RenderCompletes(v: View, step: SortStep)
    requires step.stepType == Completed
    ensures var w := Render(v, step);
            |w.bars| == |step.arrayState| &&
            forall k :: 0 <= k < |step.arrayState| ==> k in w.sorted && w.bars[k] == SortedGreen
  {
    SweptAll(Refreshed(v, |step.arrayState|));
  }

  /** The view after the timeline has fired the frames of all of `steps`,
      in order, starting from `v`. */
  function Played(v: View, steps: seq<SortStep>): View
    decreases |steps|
  {
    if steps == [] then v else Render(Played(v, steps[..|steps| - 1]), steps[|steps| - 1])
  }

  /** Playback keeps the rule and never unmarks a bar. */
  lemma {:induction false} PlayedKept(v: View, steps: seq<SortStep>)
    requires Kept(v)
    ensures Kept(Played(v, steps)) && v.sorted <= Played(v, steps).sorted
    decreases |steps|
  {
    if steps != [] {
      PlayedKept(v, steps[..|steps| - 1]);
      RenderKept(Played(v, steps[..|steps| - 1]), steps[|steps| - 1]);
    }
  }

  /** A trace that ends in COMPLETED leaves, once played, every bar of its
      last snapshot marked and painted SORTED. */
  lemma PlayedCompletes(v: View, steps: seq<SortStep>)
    requires |steps| > 0 && steps[|steps| - 1].stepType == Completed
    ensures var w := Played(v, steps);
            var n := |steps[|steps| - 1].arrayState|;
            |w.bars| == n && forall k :: 0 <= k < n ==> k in w.sorted && w.bars[k] == SortedGreen
  {
    RenderCompletes(Played(v, steps[..|steps| - 1]), steps[|steps| - 1]);
  }

  /** An empty snapshot over no bars renders as the view it found: there is
      nothing to rebuild, paint or mark. */
  lemma RenderEmpty(v: View, step: SortStep)
    requires v.bars == [] && step.arrayState == []
    ensures Render(v, step) == v
  {
    var r := Refreshed(v, 0);
    assert r == v;
    MarkedAllIs(r, step.highlightIndices);
    MarkedAllIs(Highlighted(r, step.highlightIndices, MergingBlue), step.highlightIndices);
    assert Within(step.highlightIndices, 0) == {};
  }

  /** A highlighting step marks nothing: the sorted set is the one it found. */
  lemma RenderHighlightOnly(v: View, step: SortStep)
    requires step.stepType in {Compare, Swap, Shift, MergePlace, PivotSelect}
    ensures Render(v, step).sorted == v.sorted
  {
  }

  class AnimationManager {
    var timeline: Option<Timeline>
    var isPaused: bool
    var currentStepIndex: int
    var steps: Option<seq<SortStep>>
    var visualizer: BarVisualizer?

    /** Once playback has started there are steps and a view to show them
        on; the cursor is 0 or a step. */
    predicate Valid()
      reads this, visualizer
    {
      (timeline.Some? ==> steps.Some?) &&
      (steps.Some? ==> visualizer != null) &&
      (visualizer != null ==> visualizer.Valid()) &&
      (currentStepIndex == 0 || (steps.Some? && 0 <= currentStepIndex < |steps.value|))
    }

    /** Nothing played yet. */
    constructor ()
      ensures Valid() && timeline == None && steps == None && visualizer == null
      ensures !isPaused && currentStepIndex == 0
    {
      timeline := None;
      isPaused := false;
      currentStepIndex := 0;
      steps := None;
      visualizer := null;
    }

    /** playStepsWithCodeTracking: keeps the steps and the view, rewinds to
        step 0 unpaused, and plays a new timeline of one frame per step.
        With no steps the timeline has no frames: play() leaves it stopped
        and the completion callback runs at once (`finished`).  The two
        callbacks are the caller's (see module Controller). */
    method PlayStepsWithCodeTracking(steps: seq<SortStep>, visualizer: BarVisualizer, speed: real)
      returns (finished: bool)
      requires speed != 0.0 && visualizer.Valid()
      modifies this
      ensures Valid() && this.steps == Some(steps) && this.visualizer == visualizer
      ensures currentStepIndex == 0 && !isPaused
      ensures timeline == Some(Timeline(Schedule(|steps|, Interval(speed)), if steps == [] then Stopped else Running))
      ensures finished <==> steps == []
    {
      this.steps := Some(steps);
      this.visualizer := visualizer;
      currentStepIndex := 0;
      isPaused := false;
      var durationMs := Interval(speed);
      var frames: seq<KeyFrame> := [];
      for i := 0 to |steps|
        invariant |frames| == i
        invariant forall k :: 0 <= k < i ==> frames[k] == Frame(durationMs, k)
      {
        frames := frames + [Frame(durationMs, i)];
      }
      assert frames == Schedule(|steps|, durationMs);
      var created := Timeline(frames, Stopped);
      finished := FinishesAtOnce(created);
      timeline := Some(AfterPlay(created));
    }

    /** executeStep: an index past the last step does nothing; otherwise the
        cursor moves to it, the view renders the step, and the step is
        handed to the step callback exactly once (returned here).  When the
        view throws on an empty snapshot over no bars, the cursor has moved,
        the view is as it was (which is what rendering that step gives), and
        the callback is not reached. */
    method ExecuteStep(stepIndex: nat) returns (update: Option<SortStep>)
      requires Valid() && steps.Some?
      modifies this`currentStepIndex, visualizer
      ensures Valid() && visualizer == old(visualizer)
      ensures stepIndex >= |steps.value| ==>
                update == None && currentStepIndex == old(currentStepIndex) &&
                visualizer.Shown() == old(visualizer.Shown())
      ensures stepIndex < |steps.value| ==>
                var step := steps.value[stepIndex];
                currentStepIndex == stepIndex &&
                visualizer.Shown() == Render(old(visualizer.Shown()), step) &&
                update == if MaxThrows(old(visualizer.bars), step.arrayState) then None else Some(step)
      ensures stepIndex < |steps.value| && MaxThrows(old(visualizer.bars), steps.value[stepIndex].arrayState) ==>
                visualizer.Shown() == old(visualizer.Shown())
    {
      if stepIndex >= |steps.value| {
        return None;
      }
      var step := steps.value[stepIndex];
      currentStepIndex := stepIndex;
      var thrown := visualizer.UpdateBarsFromArray(Some(step.arrayState));
      if thrown {
        RenderEmpty(old(visualizer.Shown()), step);
        return None;
      }
      var h := Some(step.highlightIndices);
      match step.stepType {
        case Compare => visualizer.HighlightBars(h, ComparingOrange);
        case Swap => visualizer.HighlightBars(h, SwappingRed);
        case Shift => visualizer.HighlightBars(h, ShiftingPink);
        case MergePlace => visualizer.HighlightBars(h, MergingBlue);
        case PivotSelect => visualizer.HighlightBars(h, PivotCrimson);
        case Sorted => visualizer.MarkSortedAll(h);
        case Merged =>
          visualizer.HighlightBars(h, MergingBlue);
          visualizer.MarkSortedAll(h);
        case Completed =>
          var wave := CreateCompletionAnimation();
        case _ =>
      }
      update := Some(step);
    }

    /** createCompletionAnimation: a sweep with one frame per bar, bar i at
        30 * i ms, played in order: every bar ends up marked. */
    method CreateCompletionAnimation() returns (wave: seq<SweepFrame>)
      requires visualizer != null && visualizer.Valid()
      modifies visualizer
      ensures visualizer.Valid()
      ensures wave == Sweep(|old(visualizer.bars)|)
      ensures visualizer.Shown() == Swept(old(visualizer.Shown()))
    {
      var n := |visualizer.bars|;
      wave := [];
      for i := 0 to n
        invariant wave == Sweep(i)
      {
        wave := wave + [SweepFrame(30 * i, i)];
      }
      ghost var v0 := visualizer.Shown();
      for i := 0 to n
        invariant visualizer.Valid() && |visualizer.bars| == n
        invariant visualizer.Shown() == MarkedAll(v0, Indices(i))
      {
        MarkedAllSnoc(v0, Indices(i), wave[i].index);
        assert Indices(i + 1) == Indices(i) + [i];
        visualizer.MarkSorted(wave[i].index);
        MarkedAllIs(v0, Indices(i + 1));
      }
    }

    /** pauseAnimation: with a timeline, the pause flag toggles, and the
        timeline gets pause() when the flag was clear and play() when it was
        set; without one, nothing happens. */
    method PauseAnimation()
      requires Valid()
      modifies this`timeline, this`isPaused
      ensures Valid()
      ensures old(timeline).None? ==> timeline == None && isPaused == old(isPaused)
      ensures old(timeline).Some? ==>
                isPaused == !old(isPaused) &&
                timeline == Some(if old(isPaused) then AfterPlay(old(timeline).value) else AfterPause(old(timeline).value))
    {
      if timeline.Some? && !isPaused {
        timeline := Some(AfterPause(timeline.value));
        isPaused := true;
      } else if timeline.Some? && isPaused {
        timeline := Some(AfterPlay(timeline.value));
        isPaused := false;
      }
    }

    /** stopAnimation: the timeline, if any, stops; unpaused, back at step 0. */
    method StopAnimation()
      requires Valid()
      modifies this`timeline, this`isPaused, this`currentStepIndex
      ensures Valid() && !isPaused && currentStepIndex == 0
      ensures timeline == if old(timeline).Some? then Some(old(timeline).value.(status := Stopped)) else None
    {
      if timeline.Some? {
        timeline := Some(timeline.value.(status := Stopped));
      }
      isPaused := false;
      currentStepIndex := 0;
    }

    method IsPaused() returns (b: bool)
      ensures b == isPaused
    {
      b := isPaused;
    }

    method GetCurrentStepIndex() returns (k: int)
      requires Valid()
      ensures k == currentStepIndex
      ensures k == 0 || (steps.Some? && 0 <= k < |steps.value|)
    {
      k := currentStepIndex;
    }

    /** getTotalSteps: 0 before any playback, the number of steps after. */
    method GetTotalSteps() returns (n: nat)
      ensures n == if steps.Some? then |steps.value| else 0
    {
      n := if steps.Some? then |steps.value| else 0;
    }
  }
}
