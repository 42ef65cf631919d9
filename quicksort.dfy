/** The quickSort methods over arrays, each proved against the reference in
    module Quick. */
module QuickSorting {
  import opened Steps
  import opened Trace
  import opened Quick

  /** quickSort: sorts `a` in place and returns the recorded steps. */
  method QuickSort(a: array<int>) returns (steps: seq<SortStep>)
    modifies a
    ensures Run(a[..], steps) == QuickSortRun(old(a[..]))
  {
    steps := QuickSortHelper(a, 0, a.Length - 1, []);
    steps := steps + [SortStep(Completed, [], a[..], QuickDone)];
  }

  /** quickSortHelper: sorts low..high of `a`, appending its steps to
      `steps0`, as QSorting describes. */
  method QuickSortHelper(a: array<int>, low: int, high: int, steps0: seq<SortStep>)
    returns (steps: seq<SortStep>)
    requires Fits(a.Length, low, high)
    modifies a
    ensures Run(a[..], steps) == QSorting(Run(old(a[..]), steps0), low, high)
    decreases high - low + 1
  {
    ghost var r0 := Run(a[..], steps0);
    steps := steps0;
    if low < high {
      var range := CreateRange(low, high);
      steps := steps + [SortStep(PartitionStart, range[..], a[..], Processing(low, high))];
      ghost var d := Run(a[..], steps);
      assert d == Note(r0, PartitionStart, Span(low, high), Processing(low, high));
      var pi;
      steps, pi := Partition(a, low, high, steps);
      ghost var p := Part(Run(a[..], steps), pi);
      assert p == Quick.Partition(d, low, high);
      steps := QuickSortHelper(a, low, pi - 1, steps);
      steps := QuickSortHelper(a, pi + 1, high, steps);
      assert QParts(d, low, high) == QSorting(QSorting(p.run, low, pi - 1), pi + 1, high);
    }
  }

  /** partition: partitions low..high of `a` around a[high], appending its
      steps to `steps0`, and returns the pivot's final position, as
      Partition describes. */
  method Partition(a: array<int>, low: int, high: int, steps0: seq<SortStep>)
    returns (steps: seq<SortStep>, pi: int)
    requires Wide(a.Length, low, high)
    modifies a
    ensures Part(Run(a[..], steps), pi) == Quick.Partition(Run(old(a[..]), steps0), low, high)
  {
    var pivot := a[high];
    steps := steps0 + [SortStep(PivotSelect, [high], a[..], SelectedPivot(pivot))];
    ghost var s := Part(Run(a[..], steps), low - 1);
    var i := low - 1;
    for j := low to high
      invariant Scanning(Part(Run(a[..], steps), i), low, j, high)
      invariant Scan(Part(Run(a[..], steps), i), low, j, high, pivot) == Scan(s, low, low, high, pivot)
    {
      ghost var cur := Part(Run(a[..], steps), i);
      steps := steps + [SortStep(Compare, [j, high], a[..], ComparingPivot(a[j], pivot))];
      if a[j] <= pivot {
        i := i + 1;
        if i != j {
          var temp := a[i];
          a[i] := a[j];
          a[j] := temp;
          steps := steps + [SortStep(Swap, [i, j], a[..], Swapped(a[i], a[j]))];
        }
      }
      assert Part(Run(a[..], steps), i) == Visit(cur, low, j, high, pivot);
    }
    ghost var p := Part(Run(a[..], steps), i);
    if i + 1 != high {
      var temp := a[i + 1];
      a[i + 1] := a[high];
      a[high] := temp;
      steps := steps + [SortStep(PivotFinal, [i + 1, high], a[..], PlacedPivot(pivot, i + 1))];
    }
    assert Run(a[..], steps) == Placed(p, high, pivot);
    steps := steps + [SortStep(Sorted, [i + 1], a[..], PivotSorted(pivot, i + 1))];
    pi := i + 1;
  }
}
