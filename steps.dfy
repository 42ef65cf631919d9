/** One recorded instant of a sorting algorithm: the kind of event, the array
    positions it concerns, a snapshot of the whole array taken after the event,
    and a status text.  Also: what it means for a list of steps to be a faithful
    replay of the array's history, and counting helpers. */
module Steps {

  /** The seventeen kinds of event a step can record. */
  datatype StepType =
    | Compare | Swap | Sorted | Current | Select | Insert | Shift
    | Divide | MergeStart | MergePrep | MergePlace | Merged
    | PartitionStart | PivotSelect | PivotPlaced | PivotFinal
    | Completed

  /** The status text of a step: which of the generators' messages it shows,
      with the values the message names (array elements, positions, range
      bounds).  Argument order follows the text. */
  datatype Message =
    | Comparing(first: int, second: int)
    | ComparingWith(element: int, key: int)
    | ComparingPivot(element: int, pivot: int)
    | Swapped(first: int, second: int)
    | SortedAt(position: int)
    | ConfirmedSorted(position: int)
    | PositionSorted(position: int)
    | FirstSorted
    | SelectedKey(key: int)
    | ShiftingRight(element: int)
    | Inserted(key: int, position: int)
    | PrefixSorted(last: int)
    | Dividing(left: int, right: int)
    | StartingMerge(left: int, right: int)
    | PlacingLeft(element: int, position: int)
    | PlacingRight(element: int, position: int)
    | RemainingLeft(element: int, position: int)
    | RemainingRight(element: int, position: int)
    | MergedRange(left: int, right: int)
    | Processing(low: int, high: int)
    | SelectedPivot(pivot: int)
    | PlacedPivot(pivot: int, position: int)
    | PivotSorted(pivot: int, position: int)
    | BubbleDone | SelectionDone | InsertionDone | MergeDone | QuickDone

  /** A recorded step.  The datatype's destructors are the getters.  Its
      sequence fields are values, so a later change to the array it was
      built from does not reach it; the source's getters, which return the
      step's own arrays, are not modelled that way. */
  datatype SortStep = SortStep(
    stepType: StepType,
    highlightIndices: seq<int>,
    arrayState: seq<int>,
    description: Message)

  /** Builds a step from two live arrays, copying both (the copying constructor). */
  method NewStep(stepType: StepType, highlightIndices: array<int>, arrayState: array<int>,
                 description: Message) returns (s: SortStep)
    ensures s.stepType == stepType && s.description == description
    ensures s.highlightIndices == highlightIndices[..] && s.arrayState == arrayState[..]
  {
    s := SortStep(stepType, highlightIndices[..], arrayState[..], description);
  }

  /** A step built from `arrayState` still holds the old contents after the
      caller overwrites the array. */
  method StepOutlivesArgument(highlightIndices: array<int>, arrayState: array<int>, x: int)
    returns (s: SortStep)
    requires arrayState.Length > 0 && highlightIndices.Length > 0
    modifies highlightIndices, arrayState
    ensures arrayState[0] == x && highlightIndices[0] == x
    ensures s.arrayState == old(arrayState[..]) && s.highlightIndices == old(highlightIndices[..])
  {
    s := NewStep(Compare, highlightIndices, arrayState, Comparing(arrayState[0], x));
    arrayState[0] := x;
    highlightIndices[0] := x;
  }

  predicate InBounds(i: int, s: seq<int>) {
    0 <= i < |s|
  }

  /** The snapshot of `s` is what the event named by its type did to the array
      `prev` that was current before it: a swap exchanges two distinct
      highlighted positions, a shift copies position j into j+1, a placement or
      insertion rewrites only its one highlighted position, and every other
      kind leaves the array as it was. */
  predicate Follows(prev: seq<int>, s: SortStep) {
    var h := s.highlightIndices;
    |s.arrayState| == |prev| &&
    match s.stepType
    case Swap | PivotFinal =>
      |h| == 2 && h[0] != h[1] && InBounds(h[0], prev) && InBounds(h[1], prev) &&
      s.arrayState == prev[h[0] := prev[h[1]]][h[1] := prev[h[0]]]
    case Shift =>
      |h| == 2 && 0 <= h[0] && h[1] == h[0] + 1 && h[1] < |prev| &&
      s.arrayState == prev[h[1] := prev[h[0]]]
    case MergePlace | Insert =>
      |h| == 1 && InBounds(h[0], prev) &&
      s.arrayState == prev[h[0] := s.arrayState[h[0]]]
    case _ =>
      s.arrayState == prev
  }

  /** The array after the last of `steps` (the initial array for an empty
      trace). */
  function Final(init: seq<int>, steps: seq<SortStep>): seq<int> {
    if steps == [] then init else steps[|steps| - 1].arrayState
  }

  /** The array just before step k: the snapshot of step k-1, or the initial
      array for the first step. */
  function Before(init: seq<int>, steps: seq<SortStep>, k: nat): seq<int>
    requires k < |steps|
  {
    if k == 0 then init else steps[k - 1].arrayState
  }

  /** Replaying the snapshots from `init` passes through every step exactly as
      its type says. */
  predicate Replays(init: seq<int>, steps: seq<SortStep>) {
    ReplaysTo(init, steps, |steps|)
  }

  /** The first k steps replay from `init`. */
  predicate ReplaysTo(init: seq<int>, steps: seq<SortStep>, k: nat)
    requires k <= |steps|
  {
    k == 0 || (ReplaysTo(init, steps, k - 1) && Follows(Before(init, steps, k - 1), steps[k - 1]))
  }

  /** Whether the first k steps replay depends only on those steps. */
  lemma {:induction false} ReplaysToPrefix(init: seq<int>, a: seq<SortStep>, b: seq<SortStep>, k: nat)
    requires k <= |a| && k <= |b| && a[..k] == b[..k]
    ensures ReplaysTo(init, a, k) == ReplaysTo(init, b, k)
  {
    if k > 0 {
      assert a[k - 1] == a[..k][k - 1] == b[..k][k - 1] == b[k - 1];
      if k > 1 {
        assert a[k - 2] == a[..k][k - 2] == b[..k][k - 2] == b[k - 2];
      }
      assert a[..k - 1] == a[..k][..k - 1];
      assert b[..k - 1] == b[..k][..k - 1];
      ReplaysToPrefix(init, a, b, k - 1);
    }
  }

  /** Step i of a replayed trace follows the array left by the steps before it. */
  lemma {:induction false} ReplaysAt(init: seq<int>, steps: seq<SortStep>, k: nat, i: nat)
    requires k <= |steps| && ReplaysTo(init, steps, k) && i < k
    ensures Follows(Before(init, steps, i), steps[i])
  {
    if i < k - 1 {
      ReplaysAt(init, steps, k - 1, i);
    }
  }

  /** Every highlighted index addresses the step's own snapshot. */
  predicate InRange(s: SortStep) {
    forall k :: 0 <= k < |s.highlightIndices| ==> InBounds(s.highlightIndices[k], s.arrayState)
  }

  predicate AllInRange(steps: seq<SortStep>) {
    forall i :: 0 <= i < |steps| ==> InRange(steps[i])
  }

  /** The number of steps of kind `t`. */
  function Count(steps: seq<SortStep>, t: StepType): (c: nat)
  {
    CountTo(steps, |steps|, t)
  }

  /** The number of steps of kind `t` among the first k. */
  function CountTo(steps: seq<SortStep>, k: nat, t: StepType): nat
    requires k <= |steps|
  {
    if k == 0 then 0 else CountTo(steps, k - 1, t) + (if steps[k - 1].stepType == t then 1 else 0)
  }

  /** The count among the first k steps depends only on those steps. */
  lemma {:induction false} CountToPrefix(a: seq<SortStep>, b: seq<SortStep>, k: nat, t: StepType)
    requires k <= |a| && k <= |b| && a[..k] == b[..k]
    ensures CountTo(a, k, t) == CountTo(b, k, t)
  {
    if k > 0 {
      assert a[k - 1] == a[..k][k - 1] == b[..k][k - 1] == b[k - 1];
      assert a[..k - 1] == a[..k][..k - 1];
      assert b[..k - 1] == b[..k][..k - 1];
      CountToPrefix(a, b, k - 1, t);
    }
  }

  /** No step is of kind `t`. */
  predicate Lacks(steps: seq<SortStep>, t: StepType) {
    forall i :: 0 <= i < |steps| ==> steps[i].stepType != t
  }

  /** The first k steps count no step of kind `t` exactly when none of them
      is of that kind. */
  lemma {:induction false} LacksCountTo(steps: seq<SortStep>, k: nat, t: StepType)
    requires k <= |steps|
    ensures CountTo(steps, k, t) == 0 <==> forall i :: 0 <= i < k ==> steps[i].stepType != t
  {
    if k > 0 {
      LacksCountTo(steps, k - 1, t);
    }
  }

  lemma LacksCount(steps: seq<SortStep>, t: StepType)
    ensures Lacks(steps, t) <==> Count(steps, t) == 0
  {
    LacksCountTo(steps, |steps|, t);
  }

  /** The trace ends with exactly one COMPLETED step, which highlights nothing
      and shows `final`. */
  predicate EndsCompleted(steps: seq<SortStep>, final: seq<int>) {
    |steps| > 0 &&
    steps[|steps| - 1].stepType == Completed &&
    steps[|steps| - 1].highlightIndices == [] &&
    steps[|steps| - 1].arrayState == final &&
    Count(steps, Completed) == 1
  }

  /** Appending a step that follows the current array keeps the trace a
      faithful replay, and the array is then that step's snapshot. */
  lemma Extend(init: seq<int>, steps: seq<SortStep>, s: SortStep)
    requires Replays(init, steps) && Follows(Final(init, steps), s)
    ensures Replays(init, steps + [s]) && Final(init, steps + [s]) == s.arrayState
  {
    assert (steps + [s])[..|steps|] == steps[..|steps|];
    ReplaysToPrefix(init, steps + [s], steps, |steps|);
  }

  /** Appending a step adds it, and only it, to the count of its kind. */
  lemma CountSnoc(steps: seq<SortStep>, s: SortStep, t: StepType)
    ensures Count(steps + [s], t) == Count(steps, t) + (if s.stepType == t then 1 else 0)
  {
    assert (steps + [s])[..|steps|] == steps[..|steps|];
    CountToPrefix(steps + [s], steps, |steps|, t);
  }

  /** `h` lists lo, lo+1, ..., hi in order. */
  predicate IsSpan(h: seq<int>, lo: int, hi: int) {
    |h| == hi - lo + 1 && forall k :: 0 <= k < |h| ==> h[k] == lo + k
  }

  predicate SortedSeq(s: seq<int>) {
    forall p, q :: 0 <= p < q < |s| ==> s[p] <= s[q]
  }
}
