/** selectionSort: pass i searches the unsorted suffix for its minimum and
    swaps it into position i, then marks i sorted; a final SORTED step marks
    the last position and a COMPLETED step closes the trace. */
module Selection {
  import opened Steps
  import opened Trace

  /** The run during the search for a minimum, and the index of the smallest
      element seen so far. */
  datatype Scan = Scan(run: Run, minIdx: nat)

  /** One comparison of the search: COMPARE [minIdx, j]; j becomes the
      minimum's index only when strictly smaller, so ties keep the earlier. */
  function Probe(r: Run, minIdx: nat, j: nat): Scan
    requires minIdx < |r.arr| && j < |r.arr|
  {
    Scan(Note(r, Compare, [minIdx, j], Comparing(r.arr[minIdx], r.arr[j])), if r.arr[j] < r.arr[minIdx] then j else minIdx)
  }

  /** The search for the minimum from position j on. */
  function MinScan(r: Run, j: nat, minIdx: nat): (sc: Scan)
    requires minIdx < |r.arr| && j <= |r.arr|
    ensures sc.run.arr == r.arr && sc.minIdx < |r.arr|
    decreases |r.arr| - j, 1
  {
    if j == |r.arr| then Scan(r, minIdx) else ProbeOn(r, j, minIdx)
  }

  /** Comparison `j` of the search, then the rest of it. */
  function ProbeOn(r: Run, j: nat, minIdx: nat): (sc: Scan)
    requires minIdx < |r.arr| && j < |r.arr|
    ensures sc.run.arr == r.arr && sc.minIdx < |r.arr|
    decreases |r.arr| - j, 0
  {
    var p := Probe(r, minIdx, j);
    MinScan(p.run, j + 1, p.minIdx)
  }

  /** The run after the search of pass i, the swap when the minimum is not
      already at i, and the SORTED step for i. */
  function Select(r: Run, i: nat): Run
    requires i + 1 < |r.arr|
  {
    var sc := MinScan(r, i + 1, i);
    Note(PutMin(sc.run, i, sc.minIdx), Sorted, [i], PositionSorted(i))
  }

  /** Swaps the minimum at m into position i, unless it is already there. */
  function PutMin(r: Run, i: nat, m: nat): Run
    requires i < |r.arr| && m < |r.arr|
  {
    if m != i then Exchange(r, i, m, Swap, Swapped(r.arr[m], r.arr[i])) else r
  }

  /** The outer loop from pass i on. */
  function OuterLoop(r: Run, i: nat): (r': Run)
    ensures |r'.arr| == |r.arr|
    decreases |r.arr| - i, 1
  {
    if i + 1 >= |r.arr| then r else SelectOn(r, i)
  }

  /** Pass i, then the passes after it. */
  function SelectOn(r: Run, i: nat): (r': Run)
    requires i + 1 < |r.arr|
    ensures |r'.arr| == |r.arr|
    decreases |r.arr| - i, 0
  {
    OuterLoop(Select(r, i), i + 1)
  }

  /** What selectionSort leaves in the array and returns, for input `s`. */
  function SelectionRun(s: seq<int>): Run {
    var outer := OuterLoop(Start(s), 0);
    Note(Note(outer, Sorted, [|s| - 1], PositionSorted(|s| - 1)), Completed, [], SelectionDone)
  }

  // ------------------------------------------------------------ unfolding

  lemma MinScanUnfold(r: Run, j: nat, minIdx: nat)
    requires minIdx < |r.arr| && j < |r.arr|
    ensures MinScan(r, j, minIdx) == MinScan(Probe(r, minIdx, j).run, j + 1, Probe(r, minIdx, j).minIdx)
  {
  }

  lemma OuterUnfold(r: Run, i: nat)
    requires i + 1 < |r.arr|
    ensures OuterLoop(r, i) == OuterLoop(Select(r, i), i + 1)
  {
  }

  // ------------------------------------------------------------ the method

  /** selectionSort: sorts `a` in place and returns the recorded steps. */
  method SelectionSort(a: array<int>) returns (steps: seq<SortStep>)
    modifies a
    ensures Run(a[..], steps) == SelectionRun(old(a[..]))
  {
    ghost var a0 := a[..];
    var n := a.Length;
    steps := [];
    var i := 0;
    while i < n - 1
      invariant 0 <= i
      invariant OuterLoop(Run(a[..], steps), i) == OuterLoop(Start(a0), 0)
    {
      ghost var r0 := Run(a[..], steps);
      steps := SelectPass(a, i, steps);
      OuterUnfold(r0, i);
      i := i + 1;
    }
    assert Run(a[..], steps) == OuterLoop(Start(a0), 0);
    steps := steps + [SortStep(Sorted, [n - 1], a[..], PositionSorted(n - 1))];
    steps := steps + [SortStep(Completed, [], a[..], SelectionDone)];
  }

  /** The body of selectionSort's outer loop for pass i: find the minimum of
      the suffix, swap it into position i, and mark i sorted. */
  method SelectPass(a: array<int>, i: nat, steps0: seq<SortStep>) returns (steps: seq<SortStep>)
    requires i + 1 < a.Length
    modifies a
    ensures Run(a[..], steps) == Select(Run(old(a[..]), steps0), i)
  {
    ghost var r0 := Run(a[..], steps0);
    var minIdx;
    steps, minIdx := FindMin(a, i, steps0);
    ghost var found := Run(a[..], steps);
    if minIdx != i {
      a[i], a[minIdx] := a[minIdx], a[i];
      assert a[..] == r0.arr[i := r0.arr[minIdx]][minIdx := r0.arr[i]];
      steps := steps + [SortStep(Swap, [i, minIdx], a[..], Swapped(a[i], a[minIdx]))];
    }
    assert Run(a[..], steps) == PutMin(found, i, minIdx);
    steps := steps + [SortStep(Sorted, [i], a[..], PositionSorted(i))];
  }

  /** The inner loop of pass i: the index of the smallest element of the
      suffix from i, with a COMPARE step for each candidate. */
  method FindMin(a: array<int>, i: nat, steps0: seq<SortStep>) returns (steps: seq<SortStep>, minIdx: nat)
    requires i + 1 < a.Length
    ensures Scan(Run(a[..], steps), minIdx) == MinScan(Run(a[..], steps0), i + 1, i)
  {
    ghost var r0 := Run(a[..], steps0);
    steps, minIdx := steps0, i;
    var j := i + 1;
    while j < a.Length
      invariant i + 1 <= j <= a.Length && minIdx < a.Length
      invariant MinScan(Run(a[..], steps), j, minIdx) == MinScan(r0, i + 1, i)
    {
      MinScanUnfold(Run(a[..], steps), j, minIdx);
      steps := steps + [SortStep(Compare, [minIdx, j], a[..], Comparing(a[minIdx], a[j]))];
      if a[j] < a[minIdx] {
        minIdx := j;
      }
      j := j + 1;
    }
  }

  // ------------------------------------------------------------ the search

  /** The search leaves the array alone and keeps the run faithful. */
  lemma {:induction false} MinScanGood(init: seq<int>, r: Run, j: nat, m: nat)
    requires m < |r.arr| && j <= |r.arr| && Good(init, r)
    ensures Good(init, MinScan(r, j, m).run)
    decreases |r.arr| - j
  {
    if j < |r.arr| {
      var p := Probe(r, m, j);
      NoteGood(init, r, Compare, [m, j], Comparing(r.arr[m], r.arr[j]));
      MinScanGood(init, p.run, j + 1, p.minIdx);
      MinScanUnfold(r, j, m);
    }
  }

  /** The search from j compares exactly n-j times and records nothing else. */
  lemma {:induction false} MinScanCount(r: Run, j: nat, m: nat, t: StepType)
    requires m < |r.arr| && j <= |r.arr|
    ensures Count(MinScan(r, j, m).run.steps, t) == Count(r.steps, t) + (if t == Compare then |r.arr| - j else 0)
    decreases |r.arr| - j
  {
    if j < |r.arr| {
      var p := Probe(r, m, j);
      NoteCount(r, Compare, [m, j], Comparing(r.arr[m], r.arr[j]), t);
      MinScanCount(p.run, j + 1, p.minIdx, t);
      MinScanUnfold(r, j, m);
    }
  }

  lemma {:induction false} MinScanInRange(r: Run, j: nat, m: nat)
    requires m < |r.arr| && j <= |r.arr| && AllInRange(r.steps)
    ensures AllInRange(MinScan(r, j, m).run.steps)
    decreases |r.arr| - j
  {
    if j < |r.arr| {
      var p := Probe(r, m, j);
      MinScanInRange(p.run, j + 1, p.minIdx);
      MinScanUnfold(r, j, m);
    }
  }

  /** The search finds the first occurrence of the minimum of the suffix from
      lo: no element from lo on is smaller, and every element between lo and
      it is larger. */
  lemma {:induction false} MinScanFinds(r: Run, lo: nat, j: nat, m: nat)
    requires lo <= m < j <= |r.arr|
    requires forall k :: lo <= k < j ==> r.arr[m] <= r.arr[k]
    requires forall k :: lo <= k < m ==> r.arr[k] > r.arr[m]
    ensures var x := MinScan(r, j, m).minIdx;
      lo <= x &&
      (forall k :: lo <= k < |r.arr| ==> r.arr[x] <= r.arr[k]) &&
      (forall k :: lo <= k < x ==> r.arr[k] > r.arr[x])
    decreases |r.arr| - j
  {
    if j < |r.arr| {
      var p := Probe(r, m, j);
      MinScanFinds(p.run, lo, j + 1, p.minIdx);
      MinScanUnfold(r, j, m);
    }
  }

  // ------------------------------------------------------------ one pass

  lemma PutMinGood(init: seq<int>, r: Run, i: nat, m: nat)
    requires i < |r.arr| && m < |r.arr| && Good(init, r)
    ensures Good(init, PutMin(r, i, m)) && multiset(PutMin(r, i, m).arr) == multiset(r.arr)
    ensures PutMin(r, i, m).arr == r.arr[i := r.arr[m]][m := r.arr[i]]
  {
    if m != i {
      ExchangeGood(init, r, i, m, Swap, Swapped(r.arr[m], r.arr[i]));
    }
  }

  lemma PutMinCount(r: Run, i: nat, m: nat, t: StepType)
    requires i < |r.arr| && m < |r.arr|
    ensures Count(PutMin(r, i, m).steps, t) == Count(r.steps, t) + (if t == Swap && m != i then 1 else 0)
  {
    if m != i {
      ExchangeCount(r, i, m, Swap, Swapped(r.arr[m], r.arr[i]), t);
    }
  }

  /** Pass i keeps the run faithful and permutes the array. */
  lemma SelectGood(init: seq<int>, r: Run, i: nat)
    requires i + 1 < |r.arr| && Good(init, r)
    ensures Good(init, Select(r, i)) && multiset(Select(r, i).arr) == multiset(r.arr)
  {
    var sc := MinScan(r, i + 1, i);
    MinScanGood(init, r, i + 1, i);
    PutMinGood(init, sc.run, i, sc.minIdx);
    NoteGood(init, PutMin(sc.run, i, sc.minIdx), Sorted, [i], PositionSorted(i));
  }

  /** Pass i compares n-1-i times, swaps at most once, and marks one position
      sorted. */
  lemma SelectCount(r: Run, i: nat, t: StepType)
    requires i + 1 < |r.arr|
    ensures var c := Count(Select(r, i).steps, t) - Count(r.steps, t);
      if t == Compare then c == |r.arr| - 1 - i
      else if t == Swap then 0 <= c <= 1
      else if t == Sorted then c == 1
      else c == 0
  {
    var sc := MinScan(r, i + 1, i);
    MinScanCount(r, i + 1, i, t);
    PutMinCount(sc.run, i, sc.minIdx, t);
    NoteCount(PutMin(sc.run, i, sc.minIdx), Sorted, [i], PositionSorted(i), t);
  }

  lemma SelectInRange(r: Run, i: nat)
    requires i + 1 < |r.arr| && AllInRange(r.steps)
    ensures AllInRange(Select(r, i).steps)
  {
    MinScanInRange(r, i + 1, i);
  }

  /** The first i positions hold the i smallest elements in order. */
  ghost predicate Placed(s: seq<int>, i: nat) {
    i <= |s| &&
    SortedRange(s, 0, i) &&
    forall p, q :: 0 <= p < i <= q < |s| ==> s[p] <= s[q]
  }

  /** Swapping the minimum of the suffix into position i places one more. */
  lemma PlaceMinimum(s: seq<int>, i: nat, m: nat)
    requires i <= m < |s| && Placed(s, i)
    requires forall k :: i <= k < |s| ==> s[m] <= s[k]
    ensures Placed(s[i := s[m]][m := s[i]], i + 1)
  {
  }

  lemma SelectSorts(r: Run, i: nat)
    requires i + 1 < |r.arr| && Placed(r.arr, i)
    ensures Placed(Select(r, i).arr, i + 1)
  {
    var sc := MinScan(r, i + 1, i);
    MinScanFinds(r, i, i + 1, i);
    PutMinGood(r.arr, Run(r.arr, []), i, sc.minIdx);
    PlaceMinimum(r.arr, i, sc.minIdx);
  }

  // ------------------------------------------------------------ all passes

  lemma {:induction false} OuterGood(init: seq<int>, r: Run, i: nat)
    requires Good(init, r)
    ensures Good(init, OuterLoop(r, i)) && multiset(OuterLoop(r, i).arr) == multiset(r.arr)
    decreases |r.arr| - i
  {
    if i + 1 < |r.arr| {
      SelectGood(init, r, i);
      OuterGood(init, Select(r, i), i + 1);
      OuterUnfold(r, i);
    }
  }

  lemma {:induction false} OuterInRange(r: Run, i: nat)
    requires AllInRange(r.steps)
    ensures AllInRange(OuterLoop(r, i).steps)
    decreases |r.arr| - i
  {
    if i + 1 < |r.arr| {
      SelectInRange(r, i);
      OuterInRange(Select(r, i), i + 1);
      OuterUnfold(r, i);
    }
  }

  /** The passes from i on compare every pair among the last n-i elements
      once. */
  lemma {:induction false} OuterCompares(r: Run, i: nat)
    requires i <= |r.arr|
    ensures Count(OuterLoop(r, i).steps, Compare) == Count(r.steps, Compare) + Triangle(|r.arr| - i)
    decreases |r.arr| - i
  {
    if i + 1 < |r.arr| {
      SelectCount(r, i, Compare);
      OuterCompares(Select(r, i), i + 1);
      OuterUnfold(r, i);
    }
    TriangleUnfold(|r.arr| - i);
  }

  /** The number of passes from pass i on. */
  function Passes(n: nat, i: nat): nat {
    if i + 1 < n then n - 1 - i else 0
  }

  /** The passes from i on swap at most once each. */
  lemma {:induction false} OuterSwaps(r: Run, i: nat)
    ensures Count(r.steps, Swap) <= Count(OuterLoop(r, i).steps, Swap) <= Count(r.steps, Swap) + Passes(|r.arr|, i)
    decreases |r.arr| - i
  {
    if i + 1 < |r.arr| {
      SelectCount(r, i, Swap);
      OuterSwaps(Select(r, i), i + 1);
      OuterUnfold(r, i);
    }
  }

  /** The passes from i on mark one position each. */
  lemma {:induction false} OuterMarks(r: Run, i: nat)
    ensures Count(OuterLoop(r, i).steps, Sorted) == Count(r.steps, Sorted) + Passes(|r.arr|, i)
    decreases |r.arr| - i
  {
    if i + 1 < |r.arr| {
      SelectCount(r, i, Sorted);
      OuterMarks(Select(r, i), i + 1);
      OuterUnfold(r, i);
    }
  }

  /** The passes record no COMPLETED step. */
  lemma {:induction false} OuterNotCompleted(r: Run, i: nat)
    ensures Count(OuterLoop(r, i).steps, Completed) == Count(r.steps, Completed)
    decreases |r.arr| - i
  {
    if i + 1 < |r.arr| {
      SelectCount(r, i, Completed);
      OuterNotCompleted(Select(r, i), i + 1);
      OuterUnfold(r, i);
    }
  }

  lemma {:induction false} OuterSorts(r: Run, i: nat)
    requires Placed(r.arr, i)
    ensures SortedSeq(OuterLoop(r, i).arr)
    decreases |r.arr| - i
  {
    if i + 1 < |r.arr| {
      SelectSorts(r, i);
      OuterSorts(Select(r, i), i + 1);
      OuterUnfold(r, i);
    }
  }

  // ------------------------------------------------------------ selectionSort

  /** The steps of selectionSort replay the array's history from the input
      to the result, which is a permutation of the input. */
  lemma SelectionSortReplays(s: seq<int>)
    ensures Good(s, SelectionRun(s)) && multiset(SelectionRun(s).arr) == multiset(s)
  {
    var outer := OuterLoop(Start(s), 0);
    OuterGood(s, Start(s), 0);
    NoteGood(s, outer, Sorted, [|s| - 1], PositionSorted(|s| - 1));
    NoteGood(s, Note(outer, Sorted, [|s| - 1], PositionSorted(|s| - 1)), Completed, [], SelectionDone);
  }

  /** selectionSort leaves the array sorted. */
  lemma SelectionSortSorts(s: seq<int>)
    ensures SortedSeq(SelectionRun(s).arr)
  {
    OuterSorts(Start(s), 0);
  }

  /** On a non-empty input every highlight is inside its snapshot. */
  lemma SelectionSortInRange(s: seq<int>)
    requires |s| > 0
    ensures AllInRange(SelectionRun(s).steps)
  {
    OuterInRange(Start(s), 0);
  }

  /** On the empty input the final SORTED step highlights position -1. */
  lemma SelectionSortEmpty()
    ensures SelectionRun([]).steps ==
      [SortStep(Sorted, [-1], [], PositionSorted(-1)), SortStep(Completed, [], [], SelectionDone)]
    ensures !AllInRange(SelectionRun([]).steps)
  {
    var st := SelectionRun([]).steps[0];
    assert st.highlightIndices[0] == -1;
    assert !InBounds(st.highlightIndices[0], st.arrayState);
  }

  /** selectionSort ends with a single COMPLETED step over the final array. */
  lemma SelectionSortEnds(s: seq<int>)
    ensures EndsCompleted(SelectionRun(s).steps, SelectionRun(s).arr)
  {
    var outer := OuterLoop(Start(s), 0);
    OuterNotCompleted(Start(s), 0);
    NoteCount(outer, Sorted, [|s| - 1], PositionSorted(|s| - 1), Completed);
    NoteCount(Note(outer, Sorted, [|s| - 1], PositionSorted(|s| - 1)), Completed, [], SelectionDone, Completed);
  }

  /** selectionSort makes exactly n(n-1)/2 comparisons, whatever the input. */
  lemma SelectionSortCompares(s: seq<int>)
    ensures 2 * Count(SelectionRun(s).steps, Compare) == |s| * (|s| - 1)
  {
    var outer := OuterLoop(Start(s), 0);
    TriangleClosed(|s|);
    OuterCompares(Start(s), 0);
    NoteCount(outer, Sorted, [|s| - 1], PositionSorted(|s| - 1), Compare);
    NoteCount(Note(outer, Sorted, [|s| - 1], PositionSorted(|s| - 1)), Completed, [], SelectionDone, Compare);
  }

  /** selectionSort swaps at most once per pass: fewer times than there are
      elements. */
  lemma SelectionSortSwaps(s: seq<int>)
    ensures |s| > 0 ==> Count(SelectionRun(s).steps, Swap) < |s|
    ensures |s| == 0 ==> Count(SelectionRun(s).steps, Swap) == 0
  {
    var outer := OuterLoop(Start(s), 0);
    OuterSwaps(Start(s), 0);
    NoteCount(outer, Sorted, [|s| - 1], PositionSorted(|s| - 1), Swap);
    NoteCount(Note(outer, Sorted, [|s| - 1], PositionSorted(|s| - 1)), Completed, [], SelectionDone, Swap);
  }

  /** selectionSort marks every position sorted exactly once (and, on the
      empty input, position -1). */
  lemma SelectionSortMarks(s: seq<int>)
    ensures Count(SelectionRun(s).steps, Sorted) == if |s| == 0 then 1 else |s|
  {
    var outer := OuterLoop(Start(s), 0);
    OuterMarks(Start(s), 0);
    NoteCount(outer, Sorted, [|s| - 1], PositionSorted(|s| - 1), Sorted);
    NoteCount(Note(outer, Sorted, [|s| - 1], PositionSorted(|s| - 1)), Completed, [], SelectionDone, Sorted);
  }
}
