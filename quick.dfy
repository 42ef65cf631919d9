/** quickSort (Lomuto): a range low..high of two or more elements is
    announced (PARTITION_START) and partitioned around its last element, and
    the parts left and right of the pivot's final position are sorted
    recursively, left part first.  A partition records PIVOT_SELECT, then for
    each j in low..high-1 a COMPARE with the pivot and, when a[j] is at most
    the pivot and not already in place, a SWAP that moves it to the end of
    the small part; it then moves the pivot just after the small part
    (PIVOT_FINAL, unless it is already there) and records SORTED there. */
module Quick {
  import opened Steps
  import opened Trace

  // ------------------------------------------------------------ reference

  /** partition's loop state: the run, and i, the last position of the part
      known to hold elements at most the pivot (low - 1 while it is empty). */
  datatype Part = Part(run: Run, i: int)

  /** partition's loop over low..high-1 is at j, in state p. */
  predicate Scanning(p: Part, low: int, j: int, high: int) {
    var ok := 0 <= low && low - 1 <= p.i < j <= high < |p.run.arr|;
    ok
  }

  /** One iteration of partition's loop: COMPARE a[j] with the pivot; if it
      is at most the pivot, grow the small part by one, swapping a[j] into
      it when it is not already its last position. */
  function Visit(p: Part, low: int, j: int, high: int, pivot: int): (q: Part)
    requires Scanning(p, low, j, high) && j < high
    ensures Scanning(q, low, j + 1, high) && |q.run.arr| == |p.run.arr|
    ensures var a := p.run.arr;
            q.i == (if a[j] <= pivot then p.i + 1 else p.i) &&
            q.run.arr == (if a[j] <= pivot && p.i + 1 != j then a[p.i + 1 := a[j]][j := a[p.i + 1]] else a)
  {
    var c := Note(p.run, Compare, [j, high], ComparingPivot(p.run.arr[j], pivot));
    if c.arr[j] <= pivot then
      if p.i + 1 != j then Part(Exchange(c, p.i + 1, j, Swap, Swapped(c.arr[j], c.arr[p.i + 1])), p.i + 1)
      else Part(c, p.i + 1)
    else Part(c, p.i)
  }

  /** partition's loop from j on. */
  function Scan(p: Part, low: int, j: int, high: int, pivot: int): (x: Part)
    requires Scanning(p, low, j, high)
    ensures Scanning(x, low, high, high) && |x.run.arr| == |p.run.arr|
    decreases high - j, 1
  {
    if j < high then ScanOn(p, low, j, high, pivot) else p
  }

  /** partition's loop from j on, for j < high. */
  function ScanOn(p: Part, low: int, j: int, high: int, pivot: int): (x: Part)
    requires Scanning(p, low, j, high) && j < high
    ensures Scanning(x, low, high, high) && |x.run.arr| == |p.run.arr|
    decreases high - j, 0
  {
    Scan(Visit(p, low, j, high, pivot), low, j + 1, high, pivot)
  }

  /** The run after partition's pivot placement, at the end of the loop. */
  function Placed(p: Part, high: int, pivot: int): (t: Run)
    requires 0 <= p.i + 1 <= high < |p.run.arr|
  {
    var q := p.i + 1;
    if q != high then Exchange(p.run, q, high, PivotFinal, PlacedPivot(pivot, q)) else p.run
  }

  /** partition of low..high: PIVOT_SELECT of a[high], the loop, the pivot
      moved just after the small part, SORTED there; the result's i is the
      position partition returns. */
  function Partition(r: Run, low: int, high: int): (x: Part)
    requires Wide(|r.arr|, low, high)
    ensures low <= x.i <= high && |x.run.arr| == |r.arr|
  {
    var pivot := r.arr[high];
    var s := Note(r, PivotSelect, [high], SelectedPivot(pivot));
    var p := Scan(Part(s, low - 1), low, low, high, pivot);
    var q := p.i + 1;
    Part(Note(Placed(p, high, pivot), Sorted, [q], PivotSorted(pivot, q)), q)
  }

  /** What quickSortHelper does to low..high: nothing to a range of at most
      one element, otherwise QSplit. */
  function QSorting(r: Run, low: int, high: int): (x: Run)
    requires Fits(|r.arr|, low, high)
    ensures |x.arr| == |r.arr|
    decreases high - low + 1, 2
  {
    if low < high then QSplit(r, low, high) else r
  }

  /** One level of quickSortHelper on a range of two or more elements:
      announce it (PARTITION_START), then QParts. */
  function QSplit(r: Run, low: int, high: int): (x: Run)
    requires Wide(|r.arr|, low, high)
    ensures |x.arr| == |r.arr|
    decreases high - low + 1, 1
  {
    QParts(Note(r, PartitionStart, Span(low, high), Processing(low, high)), low, high)
  }

  /** Partition low..high, then sort low..pi-1, then pi+1..high. */
  function QParts(d: Run, low: int, high: int): (x: Run)
    requires Wide(|d.arr|, low, high)
    ensures |x.arr| == |d.arr|
    decreases high - low + 1, 0
  {
    var p := Partition(d, low, high);
    QSorting(QSorting(p.run, low, p.i - 1), p.i + 1, high)
  }

  /** What quickSort leaves in the array and returns, for input `s`: the
      helper over the whole array, then COMPLETED. */
  function QuickSortRun(s: seq<int>): Run {
    Note(QSorting(Start(s), 0, |s| - 1), Completed, [], QuickDone)
  }

  // ------------------------------------------------------------ partition's promise

  predicate AtMost(s: seq<int>, x: int) {
    forall k :: 0 <= k < |s| ==> s[k] <= x
  }

  predicate Above(s: seq<int>, x: int) {
    forall k :: 0 <= k < |s| ==> s[k] > x
  }

  /** `a` agrees with `a0` outside low..high-1. */
  predicate Outside(a: seq<int>, a0: seq<int>, low: int, high: int) {
    |a| == |a0| && forall k :: 0 <= k < |a| && !(low <= k < high) ==> a[k] == a0[k]
  }

  /** The invariant of partition's loop at j, on the array `a`: a
      permutation of `a0` that differs from it only in low..high-1, with
      low..i holding elements at most the pivot and i+1..j-1 elements above
      it. */
  predicate Arranged(a: seq<int>, a0: seq<int>, low: int, i: int, j: int, high: int, pivot: int)
    requires 0 <= low && low - 1 <= i < j <= high < |a|
  {
    var ok :=
      Outside(a, a0, low, high) && multiset(a) == multiset(a0) &&
      (forall k :: low <= k <= i ==> a[k] <= pivot) &&
      (forall k :: i < k < j ==> a[k] > pivot);
    ok
  }

  /** a[j] above the pivot joins the large part. */
  lemma ArrangedSkip(a: seq<int>, a0: seq<int>, low: int, i: int, j: int, high: int, pivot: int)
    requires 0 <= low && low - 1 <= i < j < high < |a| && Arranged(a, a0, low, i, j, high, pivot)
    requires a[j] > pivot
    ensures Arranged(a, a0, low, i, j + 1, high, pivot)
  {
  }

  /** a[j] at most the pivot, right after the small part, joins it in place. */
  lemma ArrangedGrow(a: seq<int>, a0: seq<int>, low: int, i: int, j: int, high: int, pivot: int)
    requires 0 <= low && low - 1 <= i < j < high < |a| && Arranged(a, a0, low, i, j, high, pivot)
    requires a[j] <= pivot && i + 1 == j
    ensures Arranged(a, a0, low, i + 1, j + 1, high, pivot)
  {
  }

  /** a[j] at most the pivot, away from the small part, is swapped with the
      first element of the large part. */
  lemma ArrangedSwap(a: seq<int>, b: seq<int>, a0: seq<int>, low: int, i: int, j: int, high: int, pivot: int)
    requires 0 <= low && low - 1 <= i < j < high < |a| && Arranged(a, a0, low, i, j, high, pivot)
    requires a[j] <= pivot && i + 1 != j && b == a[i + 1 := a[j]][j := a[i + 1]]
    ensures Arranged(b, a0, low, i + 1, j + 1, high, pivot)
  {
    assert multiset(b) == multiset(a);
  }

  /** One iteration keeps the loop invariant. */
  lemma VisitKeeps(p: Part, a0: seq<int>, low: int, j: int, high: int, pivot: int)
    requires Scanning(p, low, j, high) && j < high && Arranged(p.run.arr, a0, low, p.i, j, high, pivot)
    ensures var x := Visit(p, low, j, high, pivot);
            Arranged(x.run.arr, a0, low, x.i, j + 1, high, pivot)
  {
    var a := p.run.arr;
    if a[j] > pivot {
      VisitSkips(p, a0, low, j, high, pivot);
    } else if p.i + 1 == j {
      VisitGrows(p, a0, low, j, high, pivot);
    } else {
      VisitSwaps(p, a0, low, j, high, pivot);
    }
  }

  lemma VisitSkips(p: Part, a0: seq<int>, low: int, j: int, high: int, pivot: int)
    requires Scanning(p, low, j, high) && j < high && Arranged(p.run.arr, a0, low, p.i, j, high, pivot)
    requires p.run.arr[j] > pivot
    ensures var x := Visit(p, low, j, high, pivot);
            Arranged(x.run.arr, a0, low, x.i, j + 1, high, pivot)
  {
    var q := Visit(p, low, j, high, pivot);
    assert q.run.arr == p.run.arr && q.i == p.i;
    ArrangedSkip(p.run.arr, a0, low, p.i, j, high, pivot);
  }

  lemma VisitGrows(p: Part, a0: seq<int>, low: int, j: int, high: int, pivot: int)
    requires Scanning(p, low, j, high) && j < high && Arranged(p.run.arr, a0, low, p.i, j, high, pivot)
    requires p.run.arr[j] <= pivot && p.i + 1 == j
    ensures var x := Visit(p, low, j, high, pivot);
            Arranged(x.run.arr, a0, low, x.i, j + 1, high, pivot)
  {
    var q := Visit(p, low, j, high, pivot);
    assert q.run.arr == p.run.arr && q.i == p.i + 1;
    ArrangedGrow(p.run.arr, a0, low, p.i, j, high, pivot);
  }

  lemma VisitSwaps(p: Part, a0: seq<int>, low: int, j: int, high: int, pivot: int)
    requires Scanning(p, low, j, high) && j < high && Arranged(p.run.arr, a0, low, p.i, j, high, pivot)
    requires p.run.arr[j] <= pivot && p.i + 1 != j
    ensures var x := Visit(p, low, j, high, pivot);
            Arranged(x.run.arr, a0, low, x.i, j + 1, high, pivot)
  {
    var a := p.run.arr;
    var q := Visit(p, low, j, high, pivot);
    ArrangedSwap(a, q.run.arr, a0, low, p.i, j, high, pivot);
  }

  /** The loop keeps its invariant to the end. */
  lemma {:induction false} ScanKeeps(p: Part, a0: seq<int>, low: int, j: int, high: int, pivot: int)
    requires Scanning(p, low, j, high) && Arranged(p.run.arr, a0, low, p.i, j, high, pivot)
    ensures var x := Scan(p, low, j, high, pivot);
            Arranged(x.run.arr, a0, low, x.i, high, high, pivot)
    decreases high - j, 1
  {
    if j < high {
      ScanOnKeeps(p, a0, low, j, high, pivot);
    }
  }

  lemma {:induction false} ScanOnKeeps(p: Part, a0: seq<int>, low: int, j: int, high: int, pivot: int)
    requires Scanning(p, low, j, high) && j < high && Arranged(p.run.arr, a0, low, p.i, j, high, pivot)
    ensures var x := ScanOn(p, low, j, high, pivot);
            Arranged(x.run.arr, a0, low, x.i, high, high, pivot)
    decreases high - j, 0
  {
    VisitKeeps(p, a0, low, j, high, pivot);
    ScanKeeps(Visit(p, low, j, high, pivot), a0, low, j + 1, high, pivot);
  }

  /** partition's postcondition on the array: the returned position holds
      the pivot (the old a[high]), everything before it in the range is at
      most the pivot, everything after it in the range is above it, the
      range holds the same elements as before, and nothing outside the range
      moved. */
  predicate PartitionedAt(a0: seq<int>, a: seq<int>, low: int, m: int, high: int) {
    var ok :=
      0 <= low <= m <= high < |a0| && |a| == |a0| && a[m] == a0[high] &&
      AtMost(a[low..m], a0[high]) && Above(a[m + 1..high + 1], a0[high]) &&
      a[..low] == a0[..low] && a[high + 1..] == a0[high + 1..] &&
      multiset(a[low..high + 1]) == multiset(a0[low..high + 1]);
    ok
  }

  /** A permutation that moves nothing outside low..high permutes low..high. */
  lemma SegmentPerm(a0: seq<int>, a: seq<int>, low: int, high: int)
    requires 0 <= low <= high < |a0| && Outside(a, a0, low, high + 1) && multiset(a) == multiset(a0)
    ensures a[..low] == a0[..low] && a[high + 1..] == a0[high + 1..]
    ensures multiset(a[low..high + 1]) == multiset(a0[low..high + 1])
  {
    assert a[..low] == a0[..low];
    assert a[high + 1..] == a0[high + 1..];
    assert a == a[..low] + a[low..high + 1] + a[high + 1..];
    assert a0 == a0[..low] + a0[low..high + 1] + a0[high + 1..];
    var rest := multiset(a[..low]) + multiset(a[high + 1..]);
    assert multiset(a[low..high + 1]) == multiset(a) - rest;
    assert multiset(a0[low..high + 1]) == multiset(a0) - rest;
  }

  lemma AtMostSlice(a: seq<int>, lo: int, hi: int, x: int)
    requires 0 <= lo <= hi <= |a| && forall k :: lo <= k < hi ==> a[k] <= x
    ensures AtMost(a[lo..hi], x)
  {
    assert forall k :: 0 <= k < hi - lo ==> a[lo..hi][k] == a[lo + k];
  }

  lemma AboveSlice(a: seq<int>, lo: int, hi: int, x: int)
    requires 0 <= lo <= hi <= |a| && forall k :: lo <= k < hi ==> a[k] > x
    ensures Above(a[lo..hi], x)
  {
    assert forall k :: 0 <= k < hi - lo ==> a[lo..hi][k] == a[lo + k];
  }

  /** Where the loop ends, the pivot placement puts the pivot between the
      two parts, position by position. */
  lemma PlaceMoves(p: Part, a0: seq<int>, low: int, high: int, pivot: int)
    requires Scanning(p, low, high, high) && Arranged(p.run.arr, a0, low, p.i, high, high, pivot) && a0[high] == pivot
    ensures var b := Placed(p, high, pivot).arr;
            Outside(b, a0, low, high + 1) && multiset(b) == multiset(a0) && b[p.i + 1] == pivot &&
            (forall k :: low <= k < p.i + 1 ==> b[k] <= pivot) &&
            (forall k :: p.i + 1 < k <= high ==> b[k] > pivot)
  {
    var q := p.i + 1;
    if q != high {
      var a := p.run.arr;
      assert Placed(p, high, pivot).arr == a[q := a[high]][high := a[q]];
    }
  }

  /** Where the loop ends, the pivot placement leaves the range partitioned
      at i+1. */
  lemma PlaceKeeps(p: Part, a0: seq<int>, low: int, high: int, pivot: int)
    requires Scanning(p, low, high, high) && Arranged(p.run.arr, a0, low, p.i, high, high, pivot) && a0[high] == pivot
    ensures PartitionedAt(a0, Placed(p, high, pivot).arr, low, p.i + 1, high)
  {
    var b := Placed(p, high, pivot).arr;
    PlaceMoves(p, a0, low, high, pivot);
    SegmentPerm(a0, b, low, high);
    AtMostSlice(b, low, p.i + 1, pivot);
    AboveSlice(b, p.i + 2, high + 1, pivot);
  }

  /** partition leaves the pivot at the position it returns, with the
      elements at most the pivot before it and those above it after it,
      within the range, and the rest of the array as it was. */
  lemma PartitionSplits(r: Run, low: int, high: int)
    requires Wide(|r.arr|, low, high)
    ensures var x := Partition(r, low, high);
            PartitionedAt(r.arr, x.run.arr, low, x.i, high)
  {
    var pivot := r.arr[high];
    var s := Note(r, PivotSelect, [high], SelectedPivot(pivot));
    ScanKeeps(Part(s, low - 1), r.arr, low, low, high, pivot);
    PlaceKeeps(Scan(Part(s, low - 1), low, low, high, pivot), r.arr, low, high, pivot);
  }

  // ------------------------------------------------------------ partition's steps

  lemma VisitGood(init: seq<int>, p: Part, low: int, j: int, high: int, pivot: int)
    requires Scanning(p, low, j, high) && j < high && Good(init, p.run)
    ensures Good(init, Visit(p, low, j, high, pivot).run)
  {
    var c := Note(p.run, Compare, [j, high], ComparingPivot(p.run.arr[j], pivot));
    NoteGood(init, p.run, Compare, [j, high], ComparingPivot(p.run.arr[j], pivot));
    if c.arr[j] <= pivot && p.i + 1 != j {
      ExchangeGood(init, c, p.i + 1, j, Swap, Swapped(c.arr[j], c.arr[p.i + 1]));
    }
  }

  lemma {:induction false} ScanGood(init: seq<int>, p: Part, low: int, j: int, high: int, pivot: int)
    requires Scanning(p, low, j, high) && Good(init, p.run)
    ensures Good(init, Scan(p, low, j, high, pivot).run)
    decreases high - j, 1
  {
    if j < high {
      ScanOnGood(init, p, low, j, high, pivot);
    }
  }

  lemma {:induction false} ScanOnGood(init: seq<int>, p: Part, low: int, j: int, high: int, pivot: int)
    requires Scanning(p, low, j, high) && j < high && Good(init, p.run)
    ensures Good(init, ScanOn(p, low, j, high, pivot).run)
    decreases high - j, 0
  {
    VisitGood(init, p, low, j, high, pivot);
    ScanGood(init, Visit(p, low, j, high, pivot), low, j + 1, high, pivot);
  }

  /** partition keeps a faithful replay faithful: in particular every SWAP
      and PIVOT_FINAL it records exchanges two distinct positions. */
  lemma PartitionGood(init: seq<int>, r: Run, low: int, high: int)
    requires Wide(|r.arr|, low, high) && Good(init, r)
    ensures Good(init, Partition(r, low, high).run)
  {
    var pivot := r.arr[high];
    var s := Note(r, PivotSelect, [high], SelectedPivot(pivot));
    NoteGood(init, r, PivotSelect, [high], SelectedPivot(pivot));
    var p := Scan(Part(s, low - 1), low, low, high, pivot);
    ScanGood(init, Part(s, low - 1), low, low, high, pivot);
    var q := p.i + 1;
    if q != high {
      ExchangeGood(init, p.run, q, high, PivotFinal, PlacedPivot(pivot, q));
    }
    NoteGood(init, Placed(p, high, pivot), Sorted, [q], PivotSorted(pivot, q));
  }

  /** An iteration records one COMPARE, and a SWAP exactly when a[j] joins
      the small part away from its end. */
  lemma VisitCount(p: Part, low: int, j: int, high: int, pivot: int, t: StepType)
    requires Scanning(p, low, j, high) && j < high
    ensures var x := Visit(p, low, j, high, pivot);
            Count(x.run.steps, t) == Count(p.run.steps, t) +
              (if t == Compare then 1 else if t == Swap && x.i != p.i && x.i != j then 1 else 0)
  {
    var c := Note(p.run, Compare, [j, high], ComparingPivot(p.run.arr[j], pivot));
    NoteCount(p.run, Compare, [j, high], ComparingPivot(p.run.arr[j], pivot), t);
    if c.arr[j] <= pivot && p.i + 1 != j {
      ExchangeCount(c, p.i + 1, j, Swap, Swapped(c.arr[j], c.arr[p.i + 1]), t);
    }
  }

  /** The loop from j on records one COMPARE per remaining j, and at most one
      SWAP per element it adds to the small part. */
  lemma {:induction false} ScanCount(p: Part, low: int, j: int, high: int, pivot: int, t: StepType)
    requires Scanning(p, low, j, high)
    ensures var x := Scan(p, low, j, high, pivot);
            (t != Swap ==> Count(x.run.steps, t) == Count(p.run.steps, t) + (if t == Compare then high - j else 0)) &&
            (t == Swap ==> Count(x.run.steps, t) <= Count(p.run.steps, t) + (x.i - p.i))
    decreases high - j, 1
  {
    if j < high {
      ScanOnCount(p, low, j, high, pivot, t);
    }
  }

  lemma {:induction false} ScanOnCount(p: Part, low: int, j: int, high: int, pivot: int, t: StepType)
    requires Scanning(p, low, j, high) && j < high
    ensures var x := ScanOn(p, low, j, high, pivot);
            (t != Swap ==> Count(x.run.steps, t) == Count(p.run.steps, t) + (if t == Compare then high - j else 0)) &&
            (t == Swap ==> Count(x.run.steps, t) <= Count(p.run.steps, t) + (x.i - p.i))
    decreases high - j, 0
  {
    VisitCount(p, low, j, high, pivot, t);
    ScanCount(Visit(p, low, j, high, pivot), low, j + 1, high, pivot, t);
  }

  /** A partition of low..high records one PIVOT_SELECT, high-low COMPAREs,
      a PIVOT_FINAL only when the pivot is not already in place, and one
      SORTED, besides its SWAPs. */
  lemma PartitionCount(r: Run, low: int, high: int, t: StepType)
    requires Wide(|r.arr|, low, high) && t != Swap
    ensures var x := Partition(r, low, high);
            Count(x.run.steps, t) == Count(r.steps, t) +
              if t == Compare then high - low
              else if t == PivotSelect || t == Sorted then 1
              else if t == PivotFinal then (if x.i != high then 1 else 0)
              else 0
  {
    var pivot := r.arr[high];
    var s := Note(r, PivotSelect, [high], SelectedPivot(pivot));
    NoteCount(r, PivotSelect, [high], SelectedPivot(pivot), t);
    var p := Scan(Part(s, low - 1), low, low, high, pivot);
    ScanCount(Part(s, low - 1), low, low, high, pivot, t);
    var q := p.i + 1;
    if q != high {
      ExchangeCount(p.run, q, high, PivotFinal, PlacedPivot(pivot, q), t);
    }
    NoteCount(Placed(p, high, pivot), Sorted, [q], PivotSorted(pivot, q), t);
  }

  /** A partition swaps at most once per element it finds at most the
      pivot, the pivot aside. */
  lemma PartitionSwaps(r: Run, low: int, high: int)
    requires Wide(|r.arr|, low, high)
    ensures var x := Partition(r, low, high);
            Count(x.run.steps, Swap) <= Count(r.steps, Swap) + (x.i - low)
  {
    var pivot := r.arr[high];
    var s := Note(r, PivotSelect, [high], SelectedPivot(pivot));
    NoteCount(r, PivotSelect, [high], SelectedPivot(pivot), Swap);
    var p := Scan(Part(s, low - 1), low, low, high, pivot);
    ScanCount(Part(s, low - 1), low, low, high, pivot, Swap);
    var q := p.i + 1;
    if q != high {
      ExchangeCount(p.run, q, high, PivotFinal, PlacedPivot(pivot, q), Swap);
    }
    NoteCount(Placed(p, high, pivot), Sorted, [q], PivotSorted(pivot, q), Swap);
  }

  lemma VisitInRange(p: Part, low: int, j: int, high: int, pivot: int)
    requires Scanning(p, low, j, high) && j < high && AllInRange(p.run.steps)
    ensures AllInRange(Visit(p, low, j, high, pivot).run.steps)
  {
  }

  lemma {:induction false} ScanInRange(p: Part, low: int, j: int, high: int, pivot: int)
    requires Scanning(p, low, j, high) && AllInRange(p.run.steps)
    ensures AllInRange(Scan(p, low, j, high, pivot).run.steps)
    decreases high - j, 1
  {
    if j < high {
      ScanOnInRange(p, low, j, high, pivot);
    }
  }

  lemma {:induction false} ScanOnInRange(p: Part, low: int, j: int, high: int, pivot: int)
    requires Scanning(p, low, j, high) && j < high && AllInRange(p.run.steps)
    ensures AllInRange(ScanOn(p, low, j, high, pivot).run.steps)
    decreases high - j, 0
  {
    VisitInRange(p, low, j, high, pivot);
    ScanInRange(Visit(p, low, j, high, pivot), low, j + 1, high, pivot);
  }

  /** partition highlights only positions of the array. */
  lemma PartitionInRange(r: Run, low: int, high: int)
    requires Wide(|r.arr|, low, high) && AllInRange(r.steps)
    ensures AllInRange(Partition(r, low, high).run.steps)
  {
    var pivot := r.arr[high];
    var s := Note(r, PivotSelect, [high], SelectedPivot(pivot));
    ScanInRange(Part(s, low - 1), low, low, high, pivot);
  }

  /** partition records no COMPLETED step. */
  lemma PartitionLacks(r: Run, low: int, high: int)
    requires Wide(|r.arr|, low, high) && Lacks(r.steps, Completed)
    ensures Lacks(Partition(r, low, high).run.steps, Completed)
  {
    LacksCount(r.steps, Completed);
    PartitionCount(r, low, high, Completed);
    LacksCount(Partition(r, low, high).run.steps, Completed);
  }

  // ------------------------------------------------------------ sorting a range

  /** Sorting a range keeps a bound that all its elements meet. */
  lemma BoundsKept(s: seq<int>, t: seq<int>, x: int)
    requires multiset(t) == multiset(s)
    ensures AtMost(s, x) ==> AtMost(t, x)
    ensures Above(s, x) ==> Above(t, x)
  {
    forall k | 0 <= k < |t|
      ensures t[k] in s
    {
      assert t[k] in multiset(t);
    }
  }

  /** A sorted part at most x, then x, then a sorted part above x, is
      sorted. */
  lemma JoinSorted(A: seq<int>, x: int, B: seq<int>)
    requires SortedSeq(A) && SortedSeq(B) && AtMost(A, x) && Above(B, x)
    ensures SortedSeq(A + [x] + B)
  {
  }

  /** After both parts are sorted, the part before the pivot is sorted and a
      permutation of what partition left there, and nothing before the range
      and the pivot itself moved. */
  lemma LowPart(a1: seq<int>, a2: seq<int>, a3: seq<int>, low: int, m: int, high: int)
    requires 0 <= low <= m <= high < |a1|
    requires SortsRange(a1, a2, low, m - 1) && SortsRange(a2, a3, m + 1, high)
    ensures SortedSeq(a3[low..m]) && multiset(a3[low..m]) == multiset(a1[low..m])
    ensures a3[..low] == a1[..low] && a3[m] == a1[m]
  {
    assert forall k :: 0 <= k <= m ==> a3[k] == a2[k] by {
      forall k | 0 <= k <= m
        ensures a3[k] == a2[k]
      {
        assert a3[..m + 1][k] == a2[..m + 1][k];
      }
    }
    assert a3[low..m] == a2[low..m];
    assert a3[..low] == a2[..low];
    assert a2[m..][0] == a1[m..][0];
  }

  /** After both parts are sorted, the part after the pivot is sorted and a
      permutation of what partition left there, and nothing after the range
      moved. */
  lemma HighPart(a1: seq<int>, a2: seq<int>, a3: seq<int>, low: int, m: int, high: int)
    requires 0 <= low <= m <= high < |a1|
    requires SortsRange(a1, a2, low, m - 1) && SortsRange(a2, a3, m + 1, high)
    ensures SortedSeq(a3[m + 1..high + 1]) && multiset(a3[m + 1..high + 1]) == multiset(a1[m + 1..high + 1])
    ensures a3[high + 1..] == a1[high + 1..]
  {
    assert a2[m..] == a1[m..];
    assert a2[m + 1..high + 1] == a2[m..][1..high + 1 - m] == a1[m..][1..high + 1 - m] == a1[m + 1..high + 1];
    assert a2[high + 1..] == a2[m..][high + 1 - m..] == a1[m..][high + 1 - m..] == a1[high + 1..];
  }

  /** The range low..high around position m is sorted when both sides are
      and a[m] lies between them. */
  lemma SortedAround(a: seq<int>, low: int, m: int, high: int)
    requires 0 <= low <= m <= high < |a|
    requires SortedSeq(a[low..m]) && SortedSeq(a[m + 1..high + 1])
    requires AtMost(a[low..m], a[m]) && Above(a[m + 1..high + 1], a[m])
    ensures SortedSeq(a[low..high + 1])
  {
    JoinSorted(a[low..m], a[m], a[m + 1..high + 1]);
    assert a[low..high + 1] == a[low..m] + [a[m]] + a[m + 1..high + 1];
  }

  /** Permuting both sides of position m, and keeping m, permutes the
      range. */
  lemma PermAround(a1: seq<int>, a3: seq<int>, low: int, m: int, high: int)
    requires 0 <= low <= m <= high < |a1| == |a3| && a3[m] == a1[m]
    requires multiset(a3[low..m]) == multiset(a1[low..m])
    requires multiset(a3[m + 1..high + 1]) == multiset(a1[m + 1..high + 1])
    ensures multiset(a3[low..high + 1]) == multiset(a1[low..high + 1])
  {
    assert a3[low..high + 1] == a3[low..m] + [a3[m]] + a3[m + 1..high + 1];
    assert a1[low..high + 1] == a1[low..m] + [a1[m]] + a1[m + 1..high + 1];
  }

  /** The two sorted parts either side of the pivot, each a permutation of
      what partition left there, make a sorted permutation of the range. */
  lemma JoinRange(a1: seq<int>, a3: seq<int>, low: int, m: int, high: int)
    requires 0 <= low <= m <= high < |a1| == |a3| && a3[m] == a1[m]
    requires AtMost(a1[low..m], a1[m]) && Above(a1[m + 1..high + 1], a1[m])
    requires SortedSeq(a3[low..m]) && multiset(a3[low..m]) == multiset(a1[low..m])
    requires SortedSeq(a3[m + 1..high + 1]) && multiset(a3[m + 1..high + 1]) == multiset(a1[m + 1..high + 1])
    ensures SortedSeq(a3[low..high + 1]) && multiset(a3[low..high + 1]) == multiset(a1[low..high + 1])
  {
    BoundsKept(a1[low..m], a3[low..m], a1[m]);
    BoundsKept(a1[m + 1..high + 1], a3[m + 1..high + 1], a1[m]);
    SortedAround(a3, low, m, high);
    PermAround(a1, a3, low, m, high);
  }

  /** `after` is `before` with low..high sorted, low..high being a range
      of the array. */
  predicate Sorts(before: seq<int>, after: seq<int>, low: int, high: int) {
    Fits(|before|, low, high) && SortsRange(before, after, low, high)
  }

  /** Partitioning, then sorting the part before the pivot and the part
      after it, sorts the whole range. */
  lemma QuickHalves(a0: seq<int>, a1: seq<int>, a2: seq<int>, a3: seq<int>, low: int, m: int, high: int)
    requires PartitionedAt(a0, a1, low, m, high)
    requires Sorts(a1, a2, low, m - 1) && Sorts(a2, a3, m + 1, high)
    ensures Sorts(a0, a3, low, high)
  {
    LowPart(a1, a2, a3, low, m, high);
    HighPart(a1, a2, a3, low, m, high);
    JoinRange(a1, a3, low, m, high);
  }

  /** quickSortHelper sorts its range: low..high ends sorted and a
      permutation of what was there, and nothing else moves. */
  lemma {:induction false} QSortingSorts(r: Run, low: int, high: int)
    requires Fits(|r.arr|, low, high)
    ensures Sorts(r.arr, QSorting(r, low, high).arr, low, high)
    decreases high - low + 1, 2
  {
    if low < high {
      QPartsSorts(Note(r, PartitionStart, Span(low, high), Processing(low, high)), low, high);
    }
  }

  /** Partitioning low..high, then sorting the part before the pivot and
      then the part after it, sorts the range. */
  lemma {:induction false} QPartsSorts(d: Run, low: int, high: int)
    requires Wide(|d.arr|, low, high)
    ensures Sorts(d.arr, QParts(d, low, high).arr, low, high)
    decreases high - low + 1, 0
  {
    var p := Partition(d, low, high);
    var r1 := QSorting(p.run, low, p.i - 1);
    assert QParts(d, low, high) == QSorting(r1, p.i + 1, high);
    PartitionSplits(d, low, high);
    QSortingSorts(p.run, low, p.i - 1);
    QSortingSorts(r1, p.i + 1, high);
    QuickHalves(d.arr, p.run.arr, r1.arr, QSorting(r1, p.i + 1, high).arr, low, p.i, high);
  }

  // ------------------------------------------------------------ quickSortHelper's steps

  /** quickSortHelper keeps a faithful replay faithful. */
  lemma {:induction false} QSortingGood(init: seq<int>, r: Run, low: int, high: int)
    requires Fits(|r.arr|, low, high) && Good(init, r)
    ensures Good(init, QSorting(r, low, high))
    decreases high - low + 1, 2
  {
    if low < high {
      var d := Note(r, PartitionStart, Span(low, high), Processing(low, high));
      NoteGood(init, r, PartitionStart, Span(low, high), Processing(low, high));
      QPartsGood(init, d, low, high);
    }
  }

  lemma {:induction false} QPartsGood(init: seq<int>, d: Run, low: int, high: int)
    requires Wide(|d.arr|, low, high) && Good(init, d)
    ensures Good(init, QParts(d, low, high))
    decreases high - low + 1, 0
  {
    var p := Partition(d, low, high);
    PartitionGood(init, d, low, high);
    QSortingGood(init, p.run, low, p.i - 1);
    QSortingGood(init, QSorting(p.run, low, p.i - 1), p.i + 1, high);
  }

  /** quickSortHelper highlights only positions of the array. */
  lemma {:induction false} QSortingInRange(r: Run, low: int, high: int)
    requires Fits(|r.arr|, low, high) && AllInRange(r.steps)
    ensures AllInRange(QSorting(r, low, high).steps)
    decreases high - low + 1, 2
  {
    if low < high {
      var d := Note(r, PartitionStart, Span(low, high), Processing(low, high));
      QPartsInRange(d, low, high);
    }
  }

  lemma {:induction false} QPartsInRange(d: Run, low: int, high: int)
    requires Wide(|d.arr|, low, high) && AllInRange(d.steps)
    ensures AllInRange(QParts(d, low, high).steps)
    decreases high - low + 1, 0
  {
    var p := Partition(d, low, high);
    PartitionInRange(d, low, high);
    QSortingInRange(p.run, low, p.i - 1);
    QSortingInRange(QSorting(p.run, low, p.i - 1), p.i + 1, high);
  }

  /** quickSortHelper records no COMPLETED step. */
  lemma {:induction false} QSortingLacks(r: Run, low: int, high: int)
    requires Fits(|r.arr|, low, high) && Lacks(r.steps, Completed)
    ensures Lacks(QSorting(r, low, high).steps, Completed)
    decreases high - low + 1, 2
  {
    if low < high {
      var d := Note(r, PartitionStart, Span(low, high), Processing(low, high));
      LacksCount(r.steps, Completed);
      NoteCount(r, PartitionStart, Span(low, high), Processing(low, high), Completed);
      LacksCount(d.steps, Completed);
      QPartsLacks(d, low, high);
    }
  }

  lemma {:induction false} QPartsLacks(d: Run, low: int, high: int)
    requires Wide(|d.arr|, low, high) && Lacks(d.steps, Completed)
    ensures Lacks(QParts(d, low, high).steps, Completed)
    decreases high - low + 1, 0
  {
    var p := Partition(d, low, high);
    PartitionLacks(d, low, high);
    QSortingLacks(p.run, low, p.i - 1);
    QSortingLacks(QSorting(p.run, low, p.i - 1), p.i + 1, high);
  }

  // ------------------------------------------------------------ quickSort

  /** quickSort's steps replay the array's history from the input, highlight
      only positions of the array, and end in their one COMPLETED step. */
  lemma QuickSortTrace(s: seq<int>)
    ensures var y := QuickSortRun(s);
            Good(s, y) && AllInRange(y.steps) && EndsCompleted(y.steps, y.arr)
  {
    StartGood(s);
    QSortingGood(s, Start(s), 0, |s| - 1);
    QSortingInRange(Start(s), 0, |s| - 1);
    QSortingLacks(Start(s), 0, |s| - 1);
    EndsReplay(s, QSorting(Start(s), 0, |s| - 1), QuickDone);
  }

  /** quickSort leaves the input sorted, as a permutation of itself. */
  lemma QuickSortResult(s: seq<int>)
    ensures var y := QuickSortRun(s);
            SortedSeq(y.arr) && multiset(y.arr) == multiset(s)
  {
    QSortingSorts(Start(s), 0, |s| - 1);
    EndsSorted(s, QSorting(Start(s), 0, |s| - 1).arr);
  }
}
