/** bubbleSort: repeated passes that carry the largest remaining element to
    the end of the unsorted prefix, stopping after the first pass that swaps
    nothing, followed by a confirmation sweep and the completion step. */
module Bubble {
  import opened Steps
  import opened Trace

  /** The run after some comparisons of a pass, and whether the pass has
      swapped anything yet. */
  datatype Pass = Pass(run: Run, swapped: bool)

  /** One comparison of a pass: COMPARE [j, j+1], then SWAP [j, j+1] when the
      left element is the larger. */
  function Bump(r: Run, j: nat, swapped: bool): (p: Pass)
    requires j + 1 < |r.arr|
  {
    var c := Note(r, Compare, [j, j + 1], Comparing(r.arr[j], r.arr[j + 1]));
    if r.arr[j] > r.arr[j + 1] then Pass(Exchange(c, j, j + 1, Swap, Swapped(r.arr[j], r.arr[j + 1])), true)
    else Pass(c, swapped)
  }

  /** Pass `i` of the outer loop, from comparison `j` on. */
  function InnerLoop(r: Run, i: nat, j: nat, swapped: bool): (p: Pass)
    requires i + j + 1 <= |r.arr|
    ensures |p.run.arr| == |r.arr|
    decreases |r.arr| - i - 1 - j, 1
  {
    if j == |r.arr| - i - 1 then Pass(r, swapped) else BumpOn(r, i, j, swapped)
  }

  /** Comparison `j` of pass `i`, then the rest of the pass. */
  function BumpOn(r: Run, i: nat, j: nat, swapped: bool): (p: Pass)
    requires i + j + 1 < |r.arr|
    ensures |p.run.arr| == |r.arr|
    decreases |r.arr| - i - 1 - j, 0
  {
    var b := Bump(r, j, swapped);
    InnerLoop(b.run, i, j + 1, b.swapped)
  }

  /** The run after pass `i` and its SORTED step for position n-i-1. */
  function Settle(r: Run, i: nat): Run
    requires i + 1 <= |r.arr|
  {
    Note(InnerLoop(r, i, 0, false).run, Sorted, [|r.arr| - i - 1], SortedAt(|r.arr| - i - 1))
  }

  /** The outer loop from pass `i` on: a pass without swaps ends the loop. */
  function OuterLoop(r: Run, i: nat): (r': Run)
    ensures |r'.arr| == |r.arr|
    decreases |r.arr| - i, 1
  {
    if i + 1 >= |r.arr| then r else SettleOn(r, i)
  }

  /** Pass `i`, then the passes after it if this one swapped anything. */
  function SettleOn(r: Run, i: nat): (r': Run)
    requires i + 1 < |r.arr|
    ensures |r'.arr| == |r.arr|
    decreases |r.arr| - i, 0
  {
    if InnerLoop(r, i, 0, false).swapped then OuterLoop(Settle(r, i), i + 1) else Settle(r, i)
  }

  /** The confirmation sweep from position `i` on: one SORTED step per position. */
  function Confirm(r: Run, i: nat): (r': Run)
    ensures r'.arr == r.arr
    decreases |r.arr| - i, 1
  {
    if i >= |r.arr| then r else ConfirmOn(r, i)
  }

  /** The SORTED step for position `i`, then the rest of the sweep. */
  function ConfirmOn(r: Run, i: nat): (r': Run)
    requires i < |r.arr|
    ensures r'.arr == r.arr
    decreases |r.arr| - i, 0
  {
    Confirm(Note(r, Sorted, [i], ConfirmedSorted(i)), i + 1)
  }

  /** What bubbleSort leaves in the array and returns, for input `s`. */
  function BubbleRun(s: seq<int>): Run {
    Note(Confirm(OuterLoop(Start(s), 0), 0), Completed, [], BubbleDone)
  }

  // ------------------------------------------------------------ unfolding

  lemma InnerUnfold(r: Run, i: nat, j: nat, sw: bool)
    requires i + j + 1 < |r.arr|
    ensures InnerLoop(r, i, j, sw) == InnerLoop(Bump(r, j, sw).run, i, j + 1, Bump(r, j, sw).swapped)
  {
  }

  lemma OuterGoesOn(r: Run, i: nat)
    requires i + 1 < |r.arr| && InnerLoop(r, i, 0, false).swapped
    ensures OuterLoop(r, i) == OuterLoop(Settle(r, i), i + 1)
  {
  }

  lemma OuterStops(r: Run, i: nat)
    requires i + 1 < |r.arr| && !InnerLoop(r, i, 0, false).swapped
    ensures OuterLoop(r, i) == Settle(r, i)
  {
  }

  lemma ConfirmUnfold(r: Run, i: nat)
    requires i < |r.arr|
    ensures Confirm(r, i) == Confirm(Note(r, Sorted, [i], ConfirmedSorted(i)), i + 1)
  {
  }

  // ------------------------------------------------------------ the method

  /** bubbleSort: sorts `a` in place and returns the recorded steps. */
  method BubbleSort(a: array<int>) returns (steps: seq<SortStep>)
    modifies a
    ensures Run(a[..], steps) == BubbleRun(old(a[..]))
  {
    ghost var a0 := a[..];
    var n := a.Length;
    steps := [];
    var i := 0;
    while i < n - 1
      invariant 0 <= i
      invariant OuterLoop(Run(a[..], steps), i) == OuterLoop(Start(a0), 0)
    {
      ghost var r0 := Run(a[..], steps);
      var swapped;
      steps, swapped := BubblePass(a, i, steps);
      steps := steps + [SortStep(Sorted, [n - i - 1], a[..], SortedAt(n - i - 1))];
      assert Run(a[..], steps) == Settle(r0, i);
      if !swapped {
        OuterStops(r0, i);
        break;
      }
      OuterGoesOn(r0, i);
      i := i + 1;
    }
    assert Run(a[..], steps) == OuterLoop(Start(a0), 0);
    steps := ConfirmSweep(a, steps);
    steps := steps + [SortStep(Completed, [], a[..], BubbleDone)];
  }

  /** The body of bubbleSort's outer loop for pass `i`: compares each pair of
      neighbours in the unsorted prefix and swaps those out of order. */
  method BubblePass(a: array<int>, i: nat, steps0: seq<SortStep>) returns (steps: seq<SortStep>, swapped: bool)
    requires i + 1 < a.Length
    modifies a
    ensures Pass(Run(a[..], steps), swapped) == InnerLoop(Run(old(a[..]), steps0), i, 0, false)
  {
    ghost var r0 := Run(a[..], steps0);
    var n := a.Length;
    steps, swapped := steps0, false;
    var j := 0;
    while j < n - i - 1
      invariant 0 <= j <= n - i - 1
      invariant InnerLoop(Run(a[..], steps), i, j, swapped) == InnerLoop(r0, i, 0, false)
    {
      ghost var rb, sb := Run(a[..], steps), swapped;
      steps := steps + [SortStep(Compare, [j, j + 1], a[..], Comparing(a[j], a[j + 1]))];
      if a[j] > a[j + 1] {
        a[j], a[j + 1] := a[j + 1], a[j];
        swapped := true;
        assert a[..] == rb.arr[j := rb.arr[j + 1]][j + 1 := rb.arr[j]];
        steps := steps + [SortStep(Swap, [j, j + 1], a[..], Swapped(a[j + 1], a[j]))];
      }
      assert Pass(Run(a[..], steps), swapped) == Bump(rb, j, sb);
      InnerUnfold(rb, i, j, sb);
      j := j + 1;
    }
  }

  /** bubbleSort's closing loop: SORTED [k] for every position k in order. */
  method ConfirmSweep(a: array<int>, steps0: seq<SortStep>) returns (steps: seq<SortStep>)
    ensures Run(a[..], steps) == Confirm(Run(a[..], steps0), 0)
  {
    steps := steps0;
    var n := a.Length;
    var i := 0;
    while i < n
      invariant 0 <= i
      invariant Confirm(Run(a[..], steps), i) == Confirm(Run(a[..], steps0), 0)
    {
      ConfirmUnfold(Run(a[..], steps), i);
      steps := steps + [SortStep(Sorted, [i], a[..], ConfirmedSorted(i))];
      i := i + 1;
    }
  }

  // ------------------------------------------------------------ the trace

  /** One comparison keeps the run faithful and permutes the array. */
  lemma BumpGood(init: seq<int>, r: Run, j: nat, sw: bool)
    requires j + 1 < |r.arr| && Good(init, r)
    ensures Good(init, Bump(r, j, sw).run) && multiset(Bump(r, j, sw).run.arr) == multiset(r.arr)
  {
    var c := Note(r, Compare, [j, j + 1], Comparing(r.arr[j], r.arr[j + 1]));
    NoteGood(init, r, Compare, [j, j + 1], Comparing(r.arr[j], r.arr[j + 1]));
    if r.arr[j] > r.arr[j + 1] {
      ExchangeGood(init, c, j, j + 1, Swap, Swapped(r.arr[j], r.arr[j + 1]));
    }
  }

  /** One comparison records one COMPARE, and one SWAP when it swaps. */
  lemma BumpCount(r: Run, j: nat, sw: bool, t: StepType)
    requires j + 1 < |r.arr|
    ensures Count(Bump(r, j, sw).run.steps, t) ==
      Count(r.steps, t) + (if t == Compare then 1 else 0) +
      (if t == Swap && r.arr[j] > r.arr[j + 1] then 1 else 0)
  {
    var c := Note(r, Compare, [j, j + 1], Comparing(r.arr[j], r.arr[j + 1]));
    NoteCount(r, Compare, [j, j + 1], Comparing(r.arr[j], r.arr[j + 1]), t);
    if r.arr[j] > r.arr[j + 1] {
      ExchangeCount(c, j, j + 1, Swap, Swapped(r.arr[j], r.arr[j + 1]), t);
    }
  }

  /** A pass replays faithfully and permutes the array. */
  lemma {:induction false} InnerGood(init: seq<int>, r: Run, i: nat, j: nat, sw: bool)
    requires i + j + 1 <= |r.arr| && Good(init, r)
    ensures Good(init, InnerLoop(r, i, j, sw).run)
    ensures multiset(InnerLoop(r, i, j, sw).run.arr) == multiset(r.arr)
    decreases |r.arr| - i - 1 - j
  {
    if j < |r.arr| - i - 1 {
      var b := Bump(r, j, sw);
      BumpGood(init, r, j, sw);
      InnerGood(init, b.run, i, j + 1, b.swapped);
      InnerUnfold(r, i, j, sw);
    }
  }

  /** A pass highlights only positions inside the array. */
  lemma {:induction false} InnerInRange(r: Run, i: nat, j: nat, sw: bool)
    requires i + j + 1 <= |r.arr| && AllInRange(r.steps)
    ensures AllInRange(InnerLoop(r, i, j, sw).run.steps)
    decreases |r.arr| - i - 1 - j
  {
    if j < |r.arr| - i - 1 {
      var b := Bump(r, j, sw);
      InnerInRange(b.run, i, j + 1, b.swapped);
      InnerUnfold(r, i, j, sw);
    }
  }

  /** A pass from comparison j compares exactly n-1-i-j times and records no
      step of any kind but COMPARE and SWAP. */
  lemma {:induction false} InnerCount(r: Run, i: nat, j: nat, sw: bool, t: StepType)
    requires i + j + 1 <= |r.arr| && t != Swap
    ensures Count(InnerLoop(r, i, j, sw).run.steps, t) ==
      Count(r.steps, t) + (if t == Compare then |r.arr| - i - 1 - j else 0)
    decreases |r.arr| - i - 1 - j
  {
    if j < |r.arr| - i - 1 {
      var b := Bump(r, j, sw);
      BumpCount(r, j, sw, t);
      InnerCount(b.run, i, j + 1, b.swapped, t);
      InnerUnfold(r, i, j, sw);
    }
  }

  /** Settling pass i keeps the run faithful and permutes the array. */
  lemma SettleGood(init: seq<int>, r: Run, i: nat)
    requires i + 1 < |r.arr| && Good(init, r)
    ensures Good(init, Settle(r, i)) && multiset(Settle(r, i).arr) == multiset(r.arr)
  {
    InnerGood(init, r, i, 0, false);
    NoteGood(init, InnerLoop(r, i, 0, false).run, Sorted, [|r.arr| - i - 1], SortedAt(|r.arr| - i - 1));
  }

  /** Pass i and its SORTED step: n-1-i comparisons, one SORTED step, and no
      other kind but SWAP. */
  lemma SettleCount(r: Run, i: nat, t: StepType)
    requires i + 1 < |r.arr| && t != Swap
    ensures |Settle(r, i).arr| == |r.arr|
    ensures Count(Settle(r, i).steps, t) ==
      Count(r.steps, t) + (if t == Compare then |r.arr| - i - 1 else if t == Sorted then 1 else 0)
  {
    InnerCount(r, i, 0, false, t);
    NoteCount(InnerLoop(r, i, 0, false).run, Sorted, [|r.arr| - i - 1], SortedAt(|r.arr| - i - 1), t);
  }

  /** The outer loop replays faithfully and permutes the array. */
  lemma {:induction false} OuterGood(init: seq<int>, r: Run, i: nat)
    requires Good(init, r)
    ensures Good(init, OuterLoop(r, i)) && multiset(OuterLoop(r, i).arr) == multiset(r.arr)
    decreases |r.arr| - i, 1
  {
    if i + 1 < |r.arr| {
      SettleOnGood(init, r, i);
    }
  }

  lemma {:induction false} SettleOnGood(init: seq<int>, r: Run, i: nat)
    requires i + 1 < |r.arr| && Good(init, r)
    ensures Good(init, SettleOn(r, i)) && multiset(SettleOn(r, i).arr) == multiset(r.arr)
    decreases |r.arr| - i, 0
  {
    SettleGood(init, r, i);
    if InnerLoop(r, i, 0, false).swapped {
      OuterGood(init, Settle(r, i), i + 1);
    }
  }

  lemma {:induction false} OuterInRange(r: Run, i: nat)
    requires AllInRange(r.steps)
    ensures AllInRange(OuterLoop(r, i).steps)
    decreases |r.arr| - i
  {
    if i + 1 < |r.arr| {
      InnerInRange(r, i, 0, false);
      if InnerLoop(r, i, 0, false).swapped {
        OuterInRange(Settle(r, i), i + 1);
        OuterGoesOn(r, i);
      } else {
        OuterStops(r, i);
      }
    }
  }

  /** The outer loop from pass i makes at most one comparison per pair among
      the first n-i elements. */
  lemma {:induction false} OuterCompares(r: Run, i: nat)
    requires i <= |r.arr|
    ensures Count(r.steps, Compare) <= Count(OuterLoop(r, i).steps, Compare) <=
              Count(r.steps, Compare) + Triangle(|r.arr| - i)
    decreases |r.arr| - i
  {
    if i + 1 < |r.arr| {
      SettleCount(r, i, Compare);
      if InnerLoop(r, i, 0, false).swapped {
        OuterCompares(Settle(r, i), i + 1);
        OuterGoesOn(r, i);
      } else {
        OuterStops(r, i);
      }
    }
  }

  /** The outer loop records no COMPLETED step. */
  lemma {:induction false} OuterNotCompleted(r: Run, i: nat)
    ensures Count(OuterLoop(r, i).steps, Completed) == Count(r.steps, Completed)
    decreases |r.arr| - i
  {
    if i + 1 < |r.arr| {
      SettleCount(r, i, Completed);
      if InnerLoop(r, i, 0, false).swapped {
        OuterNotCompleted(Settle(r, i), i + 1);
        OuterGoesOn(r, i);
      } else {
        OuterStops(r, i);
      }
    }
  }

  /** The confirmation sweep keeps the run faithful. */
  lemma {:induction false} ConfirmGood(init: seq<int>, r: Run, i: nat)
    requires Good(init, r)
    ensures Good(init, Confirm(r, i))
    decreases |r.arr| - i
  {
    if i < |r.arr| {
      NoteGood(init, r, Sorted, [i], ConfirmedSorted(i));
      ConfirmGood(init, Note(r, Sorted, [i], ConfirmedSorted(i)), i + 1);
      ConfirmUnfold(r, i);
    }
  }

  /** SORTED [k] over `s` for k = i .. |s|-1, in order. */
  function Confirmations(s: seq<int>, i: nat): (c: seq<SortStep>)
    requires i <= |s|
    ensures |c| == |s| - i
  {
    seq(|s| - i, k requires 0 <= k < |s| - i => SortStep(Sorted, [i + k], s, ConfirmedSorted(i + k)))
  }

  /** The confirmation sweep appends exactly those steps. */
  lemma {:induction false} ConfirmShape(r: Run, i: nat)
    requires i <= |r.arr|
    ensures Confirm(r, i).steps == r.steps + Confirmations(r.arr, i)
    decreases |r.arr| - i
  {
    if i < |r.arr| {
      var c := Note(r, Sorted, [i], ConfirmedSorted(i));
      ConfirmShape(c, i + 1);
      ConfirmUnfold(r, i);
      assert [SortStep(Sorted, [i], r.arr, ConfirmedSorted(i))] + Confirmations(r.arr, i + 1)
        == Confirmations(r.arr, i);
    } else {
      assert Confirmations(r.arr, i) == [];
    }
  }

  /** The confirmation sweep adds only SORTED steps. */
  lemma {:induction false} ConfirmCount(r: Run, i: nat, t: StepType)
    requires t != Sorted
    ensures Count(Confirm(r, i).steps, t) == Count(r.steps, t)
    decreases |r.arr| - i
  {
    if i < |r.arr| {
      NoteCount(r, Sorted, [i], ConfirmedSorted(i), t);
      ConfirmCount(Note(r, Sorted, [i], ConfirmedSorted(i)), i + 1, t);
      ConfirmUnfold(r, i);
    }
  }

  lemma {:induction false} ConfirmInRange(r: Run, i: nat)
    requires AllInRange(r.steps)
    ensures AllInRange(Confirm(r, i).steps)
    decreases |r.arr| - i
  {
    if i < |r.arr| {
      ConfirmInRange(Note(r, Sorted, [i], ConfirmedSorted(i)), i + 1);
      ConfirmUnfold(r, i);
    }
  }

  /** The steps of bubbleSort replay the array's history from the input to the
      result, which is a permutation of the input. */
  lemma BubbleSortReplays(s: seq<int>)
    ensures Good(s, BubbleRun(s)) && multiset(BubbleRun(s).arr) == multiset(s)
  {
    var outer := OuterLoop(Start(s), 0);
    OuterGood(s, Start(s), 0);
    ConfirmGood(s, outer, 0);
    NoteGood(s, Confirm(outer, 0), Completed, [], BubbleDone);
  }

  /** Every step of bubbleSort highlights positions inside its snapshot. */
  lemma BubbleSortInRange(s: seq<int>)
    ensures AllInRange(BubbleRun(s).steps)
  {
    var outer := OuterLoop(Start(s), 0);
    OuterInRange(Start(s), 0);
    ConfirmInRange(outer, 0);
  }

  /** bubbleSort ends with a single COMPLETED step over the final array. */
  lemma BubbleSortEnds(s: seq<int>)
    ensures EndsCompleted(BubbleRun(s).steps, BubbleRun(s).arr)
  {
    var outer := OuterLoop(Start(s), 0);
    OuterNotCompleted(Start(s), 0);
    ConfirmCount(outer, 0, Completed);
    NoteCount(Confirm(outer, 0), Completed, [], BubbleDone, Completed);
  }

  /** bubbleSort makes at most n(n-1)/2 comparisons. */
  lemma BubbleSortCompares(s: seq<int>)
    ensures 2 * Count(BubbleRun(s).steps, Compare) <= |s| * (|s| - 1)
  {
    var outer := OuterLoop(Start(s), 0);
    OuterCompares(Start(s), 0);
    TriangleClosed(|s|);
    ConfirmCount(outer, 0, Compare);
    NoteCount(Confirm(outer, 0), Completed, [], BubbleDone, Compare);
  }

  /** The trace of bubbleSort is the outer loop's steps, then the
      confirmation sweep SORTED [0] .. SORTED [n-1] over the final array, then
      COMPLETED. */
  lemma BubbleSortConfirms(s: seq<int>)
    ensures var R := BubbleRun(s);
      R.steps == OuterLoop(Start(s), 0).steps + Confirmations(R.arr, 0) +
                 [SortStep(Completed, [], R.arr, BubbleDone)]
  {
    ConfirmShape(OuterLoop(Start(s), 0), 0);
  }

  // ------------------------------------------------------------ the order

  /** The array after one comparison of a pass. */
  function BubbleStep(s: seq<int>, j: nat): seq<int>
    requires j + 1 < |s|
  {
    if s[j] > s[j + 1] then s[j := s[j + 1]][j + 1 := s[j]] else s
  }

  lemma BumpArr(r: Run, j: nat, sw: bool)
    requires j + 1 < |r.arr|
    ensures Bump(r, j, sw).run.arr == BubbleStep(r.arr, j)
    ensures Bump(r, j, sw).swapped == (sw || r.arr[j] > r.arr[j + 1])
  {
  }

  /** One comparison carries the larger of the two to position j+1, and one
      that does not swap extends the ordered run. */
  lemma BubbleStepSorts(s: seq<int>, j: nat, sw: bool)
    requires j + 1 < |s|
    requires forall k :: 0 <= k <= j ==> s[k] <= s[j]
    requires !sw ==> AdjacentSorted(s, 0, j + 1)
    ensures var t := BubbleStep(s, j);
      |t| == |s| &&
      (forall k :: 0 <= k <= j + 1 ==> t[k] <= t[j + 1]) &&
      (forall k :: j + 1 < k < |s| ==> t[k] == s[k]) &&
      (!(sw || s[j] > s[j + 1]) ==> AdjacentSorted(t, 0, j + 2))
  {
  }

  /** A pass ends with the largest element of the prefix at its last position,
      leaves the suffix alone, and a pass without swaps saw the prefix in order. */
  lemma {:induction false} InnerSorts(r: Run, i: nat, j: nat, sw: bool)
    requires i + j + 1 <= |r.arr|
    requires forall k :: 0 <= k <= j ==> r.arr[k] <= r.arr[j]
    requires !sw ==> AdjacentSorted(r.arr, 0, j + 1)
    ensures var p := InnerLoop(r, i, j, sw); var n := |r.arr|;
      (forall k :: 0 <= k < n - i ==> p.run.arr[k] <= p.run.arr[n - i - 1]) &&
      (forall k :: n - i <= k < n ==> p.run.arr[k] == r.arr[k]) &&
      (!p.swapped ==> AdjacentSorted(p.run.arr, 0, n - i))
    decreases |r.arr| - i - 1 - j
  {
    if j < |r.arr| - i - 1 {
      var b := Bump(r, j, sw);
      BumpArr(r, j, sw);
      BubbleStepSorts(r.arr, j, sw);
      InnerSorts(b.run, i, j + 1, b.swapped);
      InnerUnfold(r, i, j, sw);
    }
  }

  /** A pass only moves elements of the prefix, so a bound on the prefix
      survives it. */
  lemma {:induction false} InnerBound(r: Run, i: nat, j: nat, sw: bool, x: int)
    requires i + j + 1 <= |r.arr|
    requires forall k :: 0 <= k < |r.arr| - i ==> r.arr[k] <= x
    ensures forall k :: 0 <= k < |r.arr| - i ==> InnerLoop(r, i, j, sw).run.arr[k] <= x
    decreases |r.arr| - i - 1 - j
  {
    if j < |r.arr| - i - 1 {
      var b := Bump(r, j, sw);
      InnerBound(b.run, i, j + 1, b.swapped, x);
      InnerUnfold(r, i, j, sw);
    }
  }

  /** The order a pass establishes: the last i+1 positions sorted and no
      smaller than anything before them, and the whole array sorted when the
      pass swapped nothing. */
  ghost predicate Settled(s: seq<int>, i: nat) {
    i <= |s| &&
    SortedRange(s, |s| - i, |s|) &&
    forall p, q :: 0 <= p < |s| - i <= q < |s| ==> s[p] <= s[q]
  }

  /** Pass i turns the order of i settled positions into i+1. */
  lemma SettleSorts(r: Run, i: nat)
    requires i + 1 < |r.arr| && Settled(r.arr, i)
    ensures Settled(Settle(r, i).arr, i + 1)
    ensures !InnerLoop(r, i, 0, false).swapped ==> SortedSeq(Settle(r, i).arr)
  {
    var n := |r.arr|;
    var t := InnerLoop(r, i, 0, false).run.arr;
    InnerSorts(r, i, 0, false);
    forall q | n - i <= q < n
      ensures forall k :: 0 <= k < n - i ==> t[k] <= t[q]
    {
      InnerBound(r, i, 0, false, r.arr[q]);
    }
    PassSettles(r.arr, t, i);
    if !InnerLoop(r, i, 0, false).swapped {
      AdjacentToSorted(t, 0, n - i);
    }
  }

  /** A pass that brings the prefix's largest element to its end, keeps the
      settled suffix, and keeps the prefix below it settles one more position. */
  lemma PassSettles(s: seq<int>, t: seq<int>, i: nat)
    requires |t| == |s| && i + 1 < |s| && Settled(s, i)
    requires forall k :: 0 <= k < |s| - i ==> t[k] <= t[|s| - i - 1]
    requires forall k :: |s| - i <= k < |s| ==> t[k] == s[k]
    requires forall q :: |s| - i <= q < |s| ==> forall k :: 0 <= k < |s| - i ==> t[k] <= s[q]
    ensures Settled(t, i + 1)
  {
  }

  /** With the last i positions settled, the remaining passes sort the whole
      array. */
  lemma {:induction false} OuterSorts(r: Run, i: nat)
    requires Settled(r.arr, i)
    ensures SortedSeq(OuterLoop(r, i).arr)
    decreases |r.arr| - i
  {
    if i + 1 < |r.arr| {
      SettleSorts(r, i);
      if InnerLoop(r, i, 0, false).swapped {
        OuterSorts(Settle(r, i), i + 1);
        OuterGoesOn(r, i);
      } else {
        OuterStops(r, i);
      }
    }
  }

  /** bubbleSort leaves the array sorted. */
  lemma BubbleSortSorts(s: seq<int>)
    ensures SortedSeq(BubbleRun(s).arr)
  {
    OuterSorts(Start(s), 0);
  }

  // ------------------------------------------------------------ the cost

  /** The array a strictly decreasing input `a0` has become after i passes:
      its first n-i elements in their original order, followed by the i
      largest in ascending order. */
  ghost predicate DecreasingShape(a0: seq<int>, s: seq<int>, i: nat) {
    |s| == |a0| && i <= |s| &&
    (forall p :: 0 <= p < |s| - i ==> s[p] == a0[i + p]) &&
    (forall p :: |s| - i <= p < |s| ==> s[p] == a0[|s| - 1 - p])
  }

  /** Pass i on a strictly decreasing input `a0`, before comparison j: the
      element a0[i] is being carried right and sits at j. */
  ghost predicate Carrying(a0: seq<int>, s: seq<int>, i: nat, j: nat) {
    |s| == |a0| && i + j + 1 <= |s| &&
    (forall p :: 0 <= p < j ==> s[p] == a0[i + 1 + p]) &&
    s[j] == a0[i] &&
    (forall p :: j < p < |s| - i ==> s[p] == a0[i + p]) &&
    (forall p :: |s| - i <= p < |s| ==> s[p] == a0[|s| - 1 - p])
  }

  /** Each comparison of such a pass swaps and carries a0[i] one further. */
  lemma CarryingStep(a0: seq<int>, s: seq<int>, i: nat, j: nat)
    requires Descending(a0) && Carrying(a0, s, i, j) && i + j + 1 < |s|
    ensures s[j] > s[j + 1] && Carrying(a0, BubbleStep(s, j), i, j + 1)
  {
    assert s[j + 1] == a0[i + j + 1];
    DescendingAt(a0, i, i + j + 1);
    var t := s[j := s[j + 1]][j + 1 := s[j]];
    assert BubbleStep(s, j) == t;
    forall p | 0 <= p < j + 1
      ensures t[p] == a0[i + 1 + p]
    {
      if p < j {
        assert t[p] == s[p];
      }
    }
    forall p | j + 1 < p < |s|
      ensures t[p] == s[p]
    {
    }
  }

  /** On that shape every comparison of the pass swaps: the pass carries a0[i]
      to position n-i-1 and reports a swap. */
  lemma {:induction false} InnerDecreasing(a0: seq<int>, r: Run, i: nat, j: nat, sw: bool)
    requires Descending(a0) && Carrying(a0, r.arr, i, j)
    requires sw || (j == 0 && i + 1 < |r.arr|)
    ensures DecreasingShape(a0, InnerLoop(r, i, j, sw).run.arr, i + 1)
    ensures InnerLoop(r, i, j, sw).swapped
    decreases |r.arr| - i - 1 - j
  {
    if j < |r.arr| - i - 1 {
      var b := Bump(r, j, sw);
      CarryingStep(a0, r.arr, i, j);
      BumpArr(r, j, sw);
      InnerDecreasing(a0, b.run, i, j + 1, b.swapped);
      InnerUnfold(r, i, j, sw);
    }
  }

  /** Pass i on that shape swaps and leaves the shape for pass i+1. */
  lemma SettleDecreasing(a0: seq<int>, r: Run, i: nat)
    requires Descending(a0) && DecreasingShape(a0, r.arr, i) && i + 1 < |r.arr|
    ensures DecreasingShape(a0, Settle(r, i).arr, i + 1) && InnerLoop(r, i, 0, false).swapped
  {
    InnerDecreasing(a0, r, i, 0, false);
  }

  /** Every pass from i on swaps something, so none ends the loop early. */
  ghost predicate AlwaysSwaps(r: Run, i: nat)
    decreases |r.arr| - i
  {
    i + 1 >= |r.arr| || (InnerLoop(r, i, 0, false).swapped && AlwaysSwaps(Settle(r, i), i + 1))
  }

  /** On a strictly decreasing input every pass swaps. */
  lemma {:induction false} DecreasingAlwaysSwaps(a0: seq<int>, r: Run, i: nat)
    requires Descending(a0) && DecreasingShape(a0, r.arr, i)
    ensures AlwaysSwaps(r, i)
    decreases |r.arr| - i
  {
    if i + 1 < |r.arr| {
      SettleDecreasing(a0, r, i);
      DecreasingAlwaysSwaps(a0, Settle(r, i), i + 1);
    }
  }

  /** When no pass stops early, the outer loop makes the comparisons of every
      remaining pass. */
  lemma {:induction false} OuterFull(r: Run, i: nat)
    requires i <= |r.arr| && AlwaysSwaps(r, i)
    ensures Count(OuterLoop(r, i).steps, Compare) == Count(r.steps, Compare) + Triangle(|r.arr| - i)
    decreases |r.arr| - i
  {
    if i + 1 < |r.arr| {
      SettleCount(r, i, Compare);
      OuterFull(Settle(r, i), i + 1);
      OuterGoesOn(r, i);
    }
    TriangleUnfold(|r.arr| - i);
  }

  /** bubbleSort on a strictly decreasing input makes all the comparisons of
      n-1 full passes. */
  lemma DecreasingCompares(s: seq<int>)
    requires Descending(s)
    ensures Count(BubbleRun(s).steps, Compare) == Triangle(|s|)
  {
    var outer := OuterLoop(Start(s), 0);
    DecreasingAlwaysSwaps(s, Start(s), 0);
    OuterFull(Start(s), 0);
    ConfirmCount(outer, 0, Compare);
    NoteCount(Confirm(outer, 0), Completed, [], BubbleDone, Compare);
  }

  /** A strictly decreasing input costs bubbleSort every one of the n(n-1)/2
      comparisons. */
  lemma BubbleSortDecreasing(s: seq<int>)
    requires StrictlyDecreasing(s)
    ensures 2 * Count(BubbleRun(s).steps, Compare) == |s| * (|s| - 1)
  {
    StrictlyToDescending(s);
    DecreasingCompares(s);
    TriangleClosed(|s|);
  }

  /** On an input already in order a pass changes nothing and reports no swap. */
  lemma {:induction false} InnerSortedInput(r: Run, i: nat, j: nat, sw: bool)
    requires i + j + 1 <= |r.arr| && SortedSeq(r.arr)
    ensures var p := InnerLoop(r, i, j, sw);
      p.run.arr == r.arr && p.swapped == sw && Count(p.run.steps, Swap) == Count(r.steps, Swap)
    decreases |r.arr| - i - 1 - j
  {
    if j < |r.arr| - i - 1 {
      BumpCount(r, j, sw, Swap);
      InnerSortedInput(Bump(r, j, sw).run, i, j + 1, sw);
      InnerUnfold(r, i, j, sw);
    }
  }

  /** An input already in order stops bubbleSort after its first pass: n-1
      comparisons, no swap, and the array comes back unchanged. */
  lemma BubbleSortSortedInput(s: seq<int>)
    requires SortedSeq(s) && |s| >= 2
    ensures var R := BubbleRun(s);
      R.arr == s && Count(R.steps, Compare) == |s| - 1 && Count(R.steps, Swap) == 0
  {
    var p := InnerLoop(Start(s), 0, 0, false);
    InnerSortedInput(Start(s), 0, 0, false);
    SettleCount(Start(s), 0, Compare);
    NoteCount(p.run, Sorted, [|s| - 1], SortedAt(|s| - 1), Swap);
    OuterStops(Start(s), 0);
    var outer := Settle(Start(s), 0);
    ConfirmCount(outer, 0, Compare);
    ConfirmCount(outer, 0, Swap);
    NoteCount(Confirm(outer, 0), Completed, [], BubbleDone, Compare);
    NoteCount(Confirm(outer, 0), Completed, [], BubbleDone, Swap);
  }
}
