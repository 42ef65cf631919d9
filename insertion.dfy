/** insertionSort: position 0 is marked sorted first; pass i then lifts out
    a[i], shifts every larger element of the sorted prefix one place right,
    drops the lifted element into the hole and marks 0..i sorted. */
module Insertion {
  import opened Steps
  import opened Trace

  /** The run during the shifting loop, and Java's `j`: the hole the lifted
      element will fill is at j+1. */
  datatype Hole = Hole(run: Run, j: int)

  /** One round of the shifting loop: COMPARE [j, j+1], then SHIFT [j, j+1]. */
  function ShiftStep(r: Run, j: nat, key: int): Run
    requires j + 1 < |r.arr|
  {
    ShiftRight(Note(r, Compare, [j, j + 1], ComparingWith(r.arr[j], key)), j, ShiftingRight(r.arr[j]))
  }

  /** The shifting loop from `j` down, for the lifted element `key`: it runs
      while a[j] > key, so a COMPARE step is recorded only when it is followed
      by a shift. */
  function ShiftLoop(r: Run, j: int, key: int): (h: Hole)
    requires -1 <= j && j + 1 < |r.arr|
    ensures -1 <= h.j <= j && |h.run.arr| == |r.arr|
    decreases j + 1, 1
  {
    if j >= 0 && r.arr[j] > key then Shifted(r, j, key) else Hole(r, j)
  }

  /** A round of the shifting loop that moves a[j], then the rest of the loop. */
  function Shifted(r: Run, j: int, key: int): (h: Hole)
    requires 0 <= j && j + 1 < |r.arr|
    ensures -1 <= h.j < j && |h.run.arr| == |r.arr|
    decreases j + 1, 0
  {
    ShiftLoop(ShiftStep(r, j, key), j - 1, key)
  }

  /** Pass i up to the end of the shifting loop: CURRENT [i], then the loop
      from i-1 down for the lifted element a[i]. */
  function Lifted(r: Run, i: nat): (h: Hole)
    requires i < |r.arr|
    ensures -1 <= h.j < i && |h.run.arr| == |r.arr|
  {
    ShiftLoop(Note(r, Current, [i], SelectedKey(r.arr[i])), i - 1, r.arr[i])
  }

  /** The end of pass i: the lifted element is written into the hole
      (INSERT), then SORTED over 0..i. */
  function Drop(h: Hole, i: nat, key: int): Run
    requires -1 <= h.j < i < |h.run.arr|
  {
    Note(Place(h.run, h.j + 1, key, Insert, Inserted(key, h.j + 1)), Sorted, Span(0, i),
         PrefixSorted(i))
  }

  /** Pass i of the outer loop. */
  function InsertStep(r: Run, i: nat): Run
    requires i < |r.arr|
  {
    Drop(Lifted(r, i), i, r.arr[i])
  }

  /** The outer loop from pass i on. */
  function OuterLoop(r: Run, i: nat): (r': Run)
    ensures |r'.arr| == |r.arr|
    decreases |r.arr| - i, 1
  {
    if i >= |r.arr| then r else Passes(r, i)
  }

  /** Pass i, then the passes after it. */
  function Passes(r: Run, i: nat): (r': Run)
    requires i < |r.arr|
    ensures |r'.arr| == |r.arr|
    decreases |r.arr| - i, 0
  {
    OuterLoop(InsertStep(r, i), i + 1)
  }

  /** The run before the first pass: SORTED [0], whatever the length. */
  function Begin(s: seq<int>): Run {
    Note(Start(s), Sorted, [0], FirstSorted)
  }

  /** What insertionSort leaves in the array and returns, for input `s`. */
  function InsertionRun(s: seq<int>): Run {
    Note(OuterLoop(Begin(s), 1), Completed, [], InsertionDone)
  }

  // ------------------------------------------------------------ unfolding

  lemma ShiftUnfold(r: Run, j: int, key: int)
    requires 0 <= j && j + 1 < |r.arr| && r.arr[j] > key
    ensures ShiftLoop(r, j, key) == ShiftLoop(ShiftStep(r, j, key), j - 1, key)
  {
  }

  lemma ShiftStops(r: Run, j: int, key: int)
    requires -1 <= j && j + 1 < |r.arr| && !(j >= 0 && r.arr[j] > key)
    ensures ShiftLoop(r, j, key) == Hole(r, j)
  {
  }

  lemma OuterUnfold(r: Run, i: nat)
    requires i < |r.arr|
    ensures OuterLoop(r, i) == OuterLoop(InsertStep(r, i), i + 1)
  {
  }

  // ------------------------------------------------------------ the method

  /** insertionSort: sorts `a` in place and returns the recorded steps. */
  method InsertionSort(a: array<int>) returns (steps: seq<SortStep>)
    modifies a
    ensures Run(a[..], steps) == InsertionRun(old(a[..]))
  {
    ghost var a0 := a[..];
    var n := a.Length;
    steps := [SortStep(Sorted, [0], a[..], FirstSorted)];
    assert Run(a[..], steps) == Begin(a0);
    var i := 1;
    while i < n
      invariant 1 <= i
      invariant OuterLoop(Run(a[..], steps), i) == OuterLoop(Begin(a0), 1)
    {
      ghost var r0 := Run(a[..], steps);
      steps := InsertPass(a, i, steps);
      OuterUnfold(r0, i);
      i := i + 1;
    }
    steps := steps + [SortStep(Completed, [], a[..], InsertionDone)];
  }

  /** The body of insertionSort's outer loop for pass i. */
  method InsertPass(a: array<int>, i: nat, steps0: seq<SortStep>) returns (steps: seq<SortStep>)
    requires i < a.Length
    modifies a
    ensures Run(a[..], steps) == InsertStep(Run(old(a[..]), steps0), i)
  {
    var key := a[i];
    steps := steps0 + [SortStep(Current, [i], a[..], SelectedKey(key))];
    var j;
    steps, j := ShiftLarger(a, i - 1, key, steps);
    ghost var h := Run(a[..], steps);
    a[j + 1] := key;
    steps := steps + [SortStep(Insert, [j + 1], a[..], Inserted(key, j + 1))];
    assert Run(a[..], steps) == Place(h, j + 1, key, Insert, Inserted(key, j + 1));
    var range := CreateRange(0, i);
    steps := steps + [SortStep(Sorted, range[..], a[..], PrefixSorted(i))];
  }

  /** insertionSort's shifting loop: moves every element from `j` down that
      is larger than `key` one place right, and returns where it stopped. */
  method ShiftLarger(a: array<int>, j0: int, key: int, steps0: seq<SortStep>) returns (steps: seq<SortStep>, j: int)
    requires -1 <= j0 && j0 + 1 < a.Length
    modifies a
    ensures Hole(Run(a[..], steps), j) == ShiftLoop(Run(old(a[..]), steps0), j0, key)
  {
    ghost var c := Run(a[..], steps0);
    steps, j := steps0, j0;
    while j >= 0 && a[j] > key
      invariant -1 <= j <= j0
      invariant ShiftLoop(Run(a[..], steps), j, key) == ShiftLoop(c, j0, key)
      decreases j + 1
    {
      ShiftUnfold(Run(a[..], steps), j, key);
      steps := steps + [SortStep(Compare, [j, j + 1], a[..], ComparingWith(a[j], key))];
      a[j + 1] := a[j];
      steps := steps + [SortStep(Shift, [j, j + 1], a[..], ShiftingRight(a[j + 1]))];
      j := j - 1;
    }
    ShiftStops(Run(a[..], steps), j, key);
  }

  // ------------------------------------------------------------ shifting

  /** A shift moves the hole one place left: filling either hole with the
      lifted element gives the same elements. */
  lemma HoleMove(r: Run, j: nat, key: int)
    requires j + 1 < |r.arr|
    ensures multiset(ShiftStep(r, j, key).arr[j := key]) == multiset(r.arr[j + 1 := key])
  {
    var s := r.arr;
    var u := s[j + 1 := s[j]];
    assert ShiftStep(r, j, key).arr == u;
    assert multiset(u) == multiset(s) - multiset{s[j + 1]} + multiset{s[j]};
    assert multiset(u[j := key]) == multiset(u) - multiset{s[j]} + multiset{key};
  }

  lemma ShiftStepGood(init: seq<int>, r: Run, j: nat, key: int)
    requires j + 1 < |r.arr| && Good(init, r)
    ensures Good(init, ShiftStep(r, j, key))
  {
    NoteGood(init, r, Compare, [j, j + 1], ComparingWith(r.arr[j], key));
    ShiftGood(init, Note(r, Compare, [j, j + 1], ComparingWith(r.arr[j], key)), j, ShiftingRight(r.arr[j]));
  }

  lemma ShiftStepCount(r: Run, j: nat, key: int, t: StepType)
    requires j + 1 < |r.arr|
    ensures Count(ShiftStep(r, j, key).steps, t) ==
      Count(r.steps, t) + (if t == Compare then 1 else 0) + (if t == Shift then 1 else 0)
  {
    NoteCount(r, Compare, [j, j + 1], ComparingWith(r.arr[j], key), t);
    ShiftCount(Note(r, Compare, [j, j + 1], ComparingWith(r.arr[j], key)), j, ShiftingRight(r.arr[j]), t);
  }

  /** The shifting loop keeps the run faithful. */
  lemma {:induction false} ShiftLoopGood(init: seq<int>, r: Run, j: int, key: int)
    requires -1 <= j && j + 1 < |r.arr| && Good(init, r)
    ensures Good(init, ShiftLoop(r, j, key).run)
    decreases j + 1
  {
    if j >= 0 && r.arr[j] > key {
      ShiftStepGood(init, r, j, key);
      ShiftLoopGood(init, ShiftStep(r, j, key), j - 1, key);
      ShiftUnfold(r, j, key);
    } else {
      ShiftStops(r, j, key);
    }
  }

  /** The shifting loop only moves the hole: filling it with the lifted
      element gives back the elements it started with. */
  lemma {:induction false} ShiftLoopHole(r: Run, j: int, key: int)
    requires -1 <= j && j + 1 < |r.arr|
    ensures var h := ShiftLoop(r, j, key);
      multiset(h.run.arr[h.j + 1 := key]) == multiset(r.arr[j + 1 := key])
    decreases j + 1
  {
    if j >= 0 && r.arr[j] > key {
      HoleMove(r, j, key);
      ShiftLoopHole(ShiftStep(r, j, key), j - 1, key);
      ShiftUnfold(r, j, key);
    } else {
      ShiftStops(r, j, key);
    }
  }

  /** The shifting loop records one COMPARE and one SHIFT per position it
      moves, and nothing else. */
  lemma {:induction false} ShiftLoopCount(r: Run, j: int, key: int, t: StepType)
    requires -1 <= j && j + 1 < |r.arr|
    ensures var h := ShiftLoop(r, j, key);
      Count(h.run.steps, t) == Count(r.steps, t) + (if t == Compare || t == Shift then j - h.j else 0)
    decreases j + 1
  {
    if j >= 0 && r.arr[j] > key {
      ShiftStepCount(r, j, key, t);
      ShiftLoopCount(ShiftStep(r, j, key), j - 1, key, t);
      ShiftUnfold(r, j, key);
    } else {
      ShiftStops(r, j, key);
    }
  }

  lemma {:induction false} ShiftLoopInRange(r: Run, j: int, key: int)
    requires -1 <= j && j + 1 < |r.arr| && AllInRange(r.steps)
    ensures AllInRange(ShiftLoop(r, j, key).run.steps)
    decreases j + 1
  {
    if j >= 0 && r.arr[j] > key {
      ShiftLoopInRange(ShiftStep(r, j, key), j - 1, key);
      ShiftUnfold(r, j, key);
    } else {
      ShiftStops(r, j, key);
    }
  }

  /** Pass i with the hole at j+1: the part left of the hole is still the
      sorted prefix, the part right of it up to i is sorted, larger than the
      lifted element and no smaller than anything left of the hole. */
  ghost predicate Shifting(s: seq<int>, j: int, i: nat, key: int) {
    -1 <= j < i < |s| &&
    SortedRange(s, 0, j + 1) &&
    SortedRange(s, j + 2, i + 1) &&
    (forall k :: j + 1 < k <= i ==> s[k] > key) &&
    (forall p, q :: 0 <= p <= j && j + 1 < q <= i ==> s[p] <= s[q])
  }

  lemma ShiftingStep(s: seq<int>, j: nat, i: nat, key: int)
    requires Shifting(s, j, i, key) && s[j] > key
    ensures Shifting(s[j + 1 := s[j]], j - 1, i, key)
  {
  }

  /** When the loop stops, dropping the lifted element into the hole sorts
      0..i. */
  lemma ShiftingDone(s: seq<int>, j: int, i: nat, key: int)
    requires Shifting(s, j, i, key) && !(j >= 0 && s[j] > key)
    ensures SortedRange(s[j + 1 := key], 0, i + 1)
  {
  }

  lemma {:induction false} ShiftLoopSorts(r: Run, j: int, i: nat, key: int)
    requires Shifting(r.arr, j, i, key)
    ensures var h := ShiftLoop(r, j, key); SortedRange(h.run.arr[h.j + 1 := key], 0, i + 1)
    decreases j + 1
  {
    if j >= 0 && r.arr[j] > key {
      ShiftingStep(r.arr, j, i, key);
      ShiftLoopSorts(ShiftStep(r, j, key), j - 1, i, key);
      ShiftUnfold(r, j, key);
    } else {
      ShiftingDone(r.arr, j, i, key);
      ShiftStops(r, j, key);
    }
  }

  // ------------------------------------------------------------ one pass

  /** The number of positions pass i shifts: at most i. */
  function Moves(r: Run, i: nat): (m: nat)
    requires i < |r.arr|
    ensures m <= i
  {
    i - 1 - Lifted(r, i).j
  }

  /** Lifting a[i] and shifting keeps the run faithful. */
  lemma LiftedGood(init: seq<int>, r: Run, i: nat)
    requires i < |r.arr| && Good(init, r)
    ensures Good(init, Lifted(r, i).run)
  {
    var c := Note(r, Current, [i], SelectedKey(r.arr[i]));
    NoteGood(init, r, Current, [i], SelectedKey(r.arr[i]));
    ShiftLoopGood(init, c, i - 1, r.arr[i]);
  }

  /** Filling the hole the shifting leaves with a[i] gives back the elements
      of the array. */
  lemma LiftedHole(r: Run, i: nat)
    requires i < |r.arr|
    ensures var h := Lifted(r, i);
      multiset(h.run.arr[h.j + 1 := r.arr[i]]) == multiset(r.arr)
  {
    var c := Note(r, Current, [i], SelectedKey(r.arr[i]));
    ShiftLoopHole(c, i - 1, r.arr[i]);
    assert c.arr[i := r.arr[i]] == r.arr;
  }

  lemma LiftedCount(r: Run, i: nat, t: StepType)
    requires i < |r.arr|
    ensures Count(Lifted(r, i).run.steps, t) == Count(r.steps, t) + (if t == Current then 1 else 0) +
      (if t == Compare || t == Shift then Moves(r, i) else 0)
  {
    var c := Note(r, Current, [i], SelectedKey(r.arr[i]));
    NoteCount(r, Current, [i], SelectedKey(r.arr[i]), t);
    ShiftLoopCount(c, i - 1, r.arr[i], t);
  }

  lemma DropGood(init: seq<int>, h: Hole, i: nat, key: int)
    requires -1 <= h.j < i < |h.run.arr| && Good(init, h.run)
    ensures Good(init, Drop(h, i, key)) && Drop(h, i, key).arr == h.run.arr[h.j + 1 := key]
  {
    PlaceGood(init, h.run, h.j + 1, key, Insert, Inserted(key, h.j + 1));
    NoteGood(init, Place(h.run, h.j + 1, key, Insert, Inserted(key, h.j + 1)), Sorted, Span(0, i),
             PrefixSorted(i));
  }

  lemma DropCount(h: Hole, i: nat, key: int, t: StepType)
    requires -1 <= h.j < i < |h.run.arr|
    ensures Count(Drop(h, i, key).steps, t) == Count(h.run.steps, t) + (if t == Insert || t == Sorted then 1 else 0)
  {
    PlaceCount(h.run, h.j + 1, key, Insert, Inserted(key, h.j + 1), t);
    NoteCount(Place(h.run, h.j + 1, key, Insert, Inserted(key, h.j + 1)), Sorted, Span(0, i),
              PrefixSorted(i), t);
  }

  /** A pass keeps the run faithful and the array a permutation of itself. */
  lemma InsertStepGood(init: seq<int>, r: Run, i: nat)
    requires i < |r.arr| && Good(init, r)
    ensures Good(init, InsertStep(r, i)) && multiset(InsertStep(r, i).arr) == multiset(r.arr)
  {
    LiftedGood(init, r, i);
    LiftedHole(r, i);
    DropGood(init, Lifted(r, i), i, r.arr[i]);
  }

  /** Pass i records a COMPARE and a SHIFT per position moved, and one
      CURRENT, one INSERT and one SORTED step. */
  lemma InsertStepCount(r: Run, i: nat, t: StepType)
    requires i < |r.arr|
    ensures Count(InsertStep(r, i).steps, t) == Count(r.steps, t) +
      (if t == Compare || t == Shift then Moves(r, i)
       else if t == Current || t == Insert || t == Sorted then 1
       else 0)
  {
    LiftedCount(r, i, t);
    DropCount(Lifted(r, i), i, r.arr[i], t);
  }

  lemma InsertStepInRange(r: Run, i: nat)
    requires i < |r.arr| && AllInRange(r.steps)
    ensures AllInRange(InsertStep(r, i).steps)
  {
    ShiftLoopInRange(Note(r, Current, [i], SelectedKey(r.arr[i])), i - 1, r.arr[i]);
  }

  /** With 0..i-1 sorted, pass i sorts 0..i, and its closing SORTED step
      highlights exactly 0..i over that array. */
  lemma InsertStepSorts(r: Run, i: nat)
    requires i < |r.arr| && SortedRange(r.arr, 0, i)
    ensures var x := InsertStep(r, i);
      SortedRange(x.arr, 0, i + 1) &&
      x.steps[|x.steps| - 1].stepType == Sorted &&
      IsSpan(x.steps[|x.steps| - 1].highlightIndices, 0, i) &&
      x.steps[|x.steps| - 1].arrayState == x.arr
  {
    var c := Note(r, Current, [i], SelectedKey(r.arr[i]));
    ShiftLoopSorts(c, i - 1, i, r.arr[i]);
  }

  /** When a[i-1] <= a[i], pass i moves nothing and leaves the array as it
      was. */
  lemma InsertStepInPlace(r: Run, i: nat)
    requires 0 < i < |r.arr| && r.arr[i - 1] <= r.arr[i]
    ensures InsertStep(r, i).arr == r.arr && Moves(r, i) == 0
  {
    var c := Note(r, Current, [i], SelectedKey(r.arr[i]));
    ShiftStops(c, i - 1, r.arr[i]);
  }

  // ------------------------------------------------------------ the passes

  lemma {:induction false} OuterGood(init: seq<int>, r: Run, i: nat)
    requires Good(init, r)
    ensures Good(init, OuterLoop(r, i)) && multiset(OuterLoop(r, i).arr) == multiset(r.arr)
    decreases |r.arr| - i
  {
    if i < |r.arr| {
      InsertStepGood(init, r, i);
      OuterGood(init, InsertStep(r, i), i + 1);
      OuterUnfold(r, i);
    }
  }

  lemma {:induction false} OuterInRange(r: Run, i: nat)
    requires AllInRange(r.steps)
    ensures AllInRange(OuterLoop(r, i).steps)
    decreases |r.arr| - i
  {
    if i < |r.arr| {
      InsertStepInRange(r, i);
      OuterInRange(InsertStep(r, i), i + 1);
      OuterUnfold(r, i);
    }
  }

  lemma {:induction false} OuterSorts(r: Run, i: nat)
    requires i <= |r.arr| && SortedRange(r.arr, 0, i)
    ensures SortedSeq(OuterLoop(r, i).arr)
    decreases |r.arr| - i
  {
    if i < |r.arr| {
      InsertStepSorts(r, i);
      OuterSorts(InsertStep(r, i), i + 1);
      OuterUnfold(r, i);
    }
  }

  /** The passes record as many COMPARE steps as SHIFT steps. */
  lemma {:induction false} OuterBalance(r: Run, i: nat)
    ensures Count(OuterLoop(r, i).steps, Compare) - Count(r.steps, Compare) ==
            Count(OuterLoop(r, i).steps, Shift) - Count(r.steps, Shift)
    decreases |r.arr| - i
  {
    if i < |r.arr| {
      InsertStepCount(r, i, Compare);
      InsertStepCount(r, i, Shift);
      OuterBalance(InsertStep(r, i), i + 1);
      OuterUnfold(r, i);
    }
  }

  /** The passes from i on shift at most once per pair of positions among
      i..n-1 and the ones before them. */
  lemma {:induction false} OuterShifts(r: Run, i: nat)
    requires i <= |r.arr|
    ensures Count(OuterLoop(r, i).steps, Shift) + Triangle(i) <= Count(r.steps, Shift) + Triangle(|r.arr|)
    decreases |r.arr| - i
  {
    if i < |r.arr| {
      var x := InsertStep(r, i);
      InsertStepCount(r, i, Shift);
      assert Count(x.steps, Shift) <= Count(r.steps, Shift) + i;
      OuterShifts(x, i + 1);
      OuterUnfold(r, i);
      assert Triangle(i + 1) == Triangle(i) + i;
    }
  }

  /** Each pass from i on records one CURRENT, one INSERT and one SORTED
      step, and no COMPLETED step. */
  lemma {:induction false} OuterPasses(r: Run, i: nat, t: StepType)
    requires i <= |r.arr| && (t == Current || t == Insert || t == Sorted || t == Completed)
    ensures Count(OuterLoop(r, i).steps, t) == Count(r.steps, t) + (if t == Completed then 0 else |r.arr| - i)
    decreases |r.arr| - i
  {
    if i < |r.arr| {
      InsertStepCount(r, i, t);
      OuterPasses(InsertStep(r, i), i + 1, t);
      OuterUnfold(r, i);
    }
  }

  /** On a sorted array the passes from i on move nothing. */
  lemma {:induction false} OuterInPlace(r: Run, i: nat)
    requires 0 < i && SortedSeq(r.arr)
    ensures OuterLoop(r, i).arr == r.arr
    ensures Count(OuterLoop(r, i).steps, Shift) == Count(r.steps, Shift)
    decreases |r.arr| - i
  {
    if i < |r.arr| {
      InsertStepInPlace(r, i);
      InsertStepCount(r, i, Shift);
      OuterInPlace(InsertStep(r, i), i + 1);
      OuterUnfold(r, i);
    }
  }

  // ------------------------------------------------------------ insertionSort

  /** The steps of insertionSort replay the array's history from the input to
      the result, which is a permutation of the input. */
  lemma InsertionSortReplays(s: seq<int>)
    ensures Good(s, InsertionRun(s)) && multiset(InsertionRun(s).arr) == multiset(s)
  {
    NoteGood(s, Start(s), Sorted, [0], FirstSorted);
    OuterGood(s, Begin(s), 1);
    NoteGood(s, OuterLoop(Begin(s), 1), Completed, [], InsertionDone);
  }

  /** insertionSort leaves the array sorted. */
  lemma InsertionSortSorts(s: seq<int>)
    ensures SortedSeq(InsertionRun(s).arr)
  {
    if |s| > 0 {
      OuterSorts(Begin(s), 1);
    }
  }

  /** On a non-empty input every highlight is inside its snapshot. */
  lemma InsertionSortInRange(s: seq<int>)
    requires |s| > 0
    ensures AllInRange(InsertionRun(s).steps)
  {
    OuterInRange(Begin(s), 1);
  }

  /** On the empty input the first SORTED step highlights position 0 of an
      empty snapshot. */
  lemma InsertionSortEmpty()
    ensures InsertionRun([]).steps ==
      [SortStep(Sorted, [0], [], FirstSorted),
       SortStep(Completed, [], [], InsertionDone)]
    ensures !AllInRange(InsertionRun([]).steps)
  {
    var st := InsertionRun([]).steps[0];
    assert st.highlightIndices[0] == 0;
    assert !InBounds(st.highlightIndices[0], st.arrayState);
  }

  /** insertionSort ends with a single COMPLETED step over the final array. */
  lemma InsertionSortEnds(s: seq<int>)
    ensures EndsCompleted(InsertionRun(s).steps, InsertionRun(s).arr)
  {
    NoteCount(Start(s), Sorted, [0], FirstSorted, Completed);
    if |s| > 0 {
      OuterPasses(Begin(s), 1, Completed);
    }
    NoteCount(OuterLoop(Begin(s), 1), Completed, [], InsertionDone, Completed);
  }

  /** Every COMPARE step is followed by a shift: the two counts agree. */
  lemma InsertionSortBalance(s: seq<int>)
    ensures Count(InsertionRun(s).steps, Compare) == Count(InsertionRun(s).steps, Shift)
  {
    NoteCount(Start(s), Sorted, [0], FirstSorted, Compare);
    NoteCount(Start(s), Sorted, [0], FirstSorted, Shift);
    OuterBalance(Begin(s), 1);
    NoteCount(OuterLoop(Begin(s), 1), Completed, [], InsertionDone, Compare);
    NoteCount(OuterLoop(Begin(s), 1), Completed, [], InsertionDone, Shift);
  }

  /** insertionSort shifts at most n(n-1)/2 times. */
  lemma InsertionSortShifts(s: seq<int>)
    ensures 2 * Count(InsertionRun(s).steps, Shift) <= |s| * (|s| - 1)
  {
    NoteCount(Start(s), Sorted, [0], FirstSorted, Shift);
    if |s| > 0 {
      OuterShifts(Begin(s), 1);
    }
    NoteCount(OuterLoop(Begin(s), 1), Completed, [], InsertionDone, Shift);
    TriangleClosed(|s|);
    TriangleUnfold(1);
  }

  /** Every position from 1 on is lifted and inserted once; SORTED is
      recorded once more, for position 0. */
  lemma InsertionSortPasses(s: seq<int>, t: StepType)
    requires |s| > 0 && (t == Current || t == Insert || t == Sorted)
    ensures Count(InsertionRun(s).steps, t) == if t == Sorted then |s| else |s| - 1
  {
    NoteCount(Start(s), Sorted, [0], FirstSorted, t);
    OuterPasses(Begin(s), 1, t);
    NoteCount(OuterLoop(Begin(s), 1), Completed, [], InsertionDone, t);
  }

  /** A sorted input is left as it is, without a comparison or a shift. */
  lemma InsertionSortSortedInput(s: seq<int>)
    requires SortedSeq(s)
    ensures InsertionRun(s).arr == s
    ensures Count(InsertionRun(s).steps, Compare) == 0 && Count(InsertionRun(s).steps, Shift) == 0
  {
    NoteCount(Start(s), Sorted, [0], FirstSorted, Shift);
    OuterInPlace(Begin(s), 1);
    NoteCount(OuterLoop(Begin(s), 1), Completed, [], InsertionDone, Shift);
    InsertionSortBalance(s);
  }
}
