/** The mergeSort methods over arrays, each proved against the reference
    in module Merging. */
module MergeSorting {
  import opened Steps
  import opened Trace
  import opened Merging

  /** mergeSort: sorts `a` in place and returns the recorded steps. */
  method MergeSort(a: array<int>) returns (steps: seq<SortStep>)
    modifies a
    ensures Run(a[..], steps) == MergeSortRun(old(a[..]))
  {
    steps := MergeSortHelper(a, 0, a.Length - 1, []);
    steps := steps + [SortStep(Completed, [], a[..], MergeDone)];
  }

  /** mergeSortHelper: sorts left..right of `a`, appending its steps to
      `steps0`, as Sorting describes.  The range it announces is
      CreateRange's result, written as the Span it equals. */
  method MergeSortHelper(a: array<int>, left: int, right: int, steps0: seq<SortStep>)
    returns (steps: seq<SortStep>)
    requires Fits(a.Length, left, right)
    modifies a
    ensures Run(a[..], steps) == Sorting(Run(old(a[..]), steps0), left, right)
    decreases right - left + 1
  {
    steps := steps0;
    if left < right {
      var mid := left + (right - left) / 2;
      steps := steps + [SortStep(PartitionStart, Span(left, right), a[..], Dividing(left, right))];
      steps := MergeSortHelper(a, left, mid, steps);
      steps := MergeSortHelper(a, mid + 1, right, steps);
      steps := Merge(a, left, mid, right, steps);
    }
  }

  /** merge: merges the sorted halves left..mid and mid+1..right of `a`
      through copies of both, appending its steps to `steps0`; its steps
      are MergeRange's. */
  method Merge(a: array<int>, left: int, mid: int, right: int, steps0: seq<SortStep>)
    returns (steps: seq<SortStep>)
    requires Halves(a.Length, left, mid, right)
    modifies a
    ensures Run(a[..], steps) == MergeRange(Run(old(a[..]), steps0), left, mid, right)
  {
    ghost var r0 := Run(a[..], steps0);
    var leftArr := a[left..mid + 1];
    var rightArr := a[mid + 1..right + 1];
    var range := CreateRange(left, right);
    steps := steps0 + [SortStep(MergeStart, range[..], a[..], StartingMerge(left, right))];
    assert Cursor(Run(a[..], steps), 0, 0, left) == Opening(r0, left, mid, right);
    var i, j, k;
    steps, i, j, k := MergeHeads(a, leftArr, rightArr, left, mid, steps);
    steps, i, k := CopyLeft(a, leftArr, rightArr, left, mid, i, j, k, steps);
    steps, j, k := CopyRight(a, leftArr, rightArr, left, mid, i, j, k, steps);
    var merged := CreateRange(left, right);
    steps := steps + [SortStep(Merged, merged[..], a[..], MergedRange(left, right))];
  }

  /** merge's main loop, from both copies unread. */
  method MergeHeads(a: array<int>, leftArr: seq<int>, rightArr: seq<int>, left: int, mid: int,
                    steps0: seq<SortStep>)
    returns (steps: seq<SortStep>, i: nat, j: nat, k: nat)
    requires 0 <= left && left + |leftArr| + |rightArr| <= a.Length && mid + 1 == left + |leftArr|
    modifies a
    ensures Within(Cursor(Run(a[..], steps), i, j, k), leftArr, rightArr, left)
    ensures i == |leftArr| || j == |rightArr|
    ensures MergeLoops(Cursor(Run(a[..], steps), i, j, k), leftArr, rightArr, left, mid) ==
            MergeLoops(Cursor(Run(old(a[..]), steps0), 0, 0, left), leftArr, rightArr, left, mid)
  {
    ghost var c0 := Cursor(Run(a[..], steps0), 0, 0, left);
    steps, i, j, k := steps0, 0, 0, left;
    while i < |leftArr| && j < |rightArr|
      invariant Within(Cursor(Run(a[..], steps), i, j, k), leftArr, rightArr, left)
      invariant MergeLoops(Cursor(Run(a[..], steps), i, j, k), leftArr, rightArr, left, mid) ==
                MergeLoops(c0, leftArr, rightArr, left, mid)
      decreases |leftArr| + |rightArr| - i - j
    {
      ghost var cur := Cursor(Run(a[..], steps), i, j, k);
      LoopsHeads(cur, leftArr, rightArr, left, mid);
      steps := steps + [SortStep(Compare, [left + i, mid + 1 + j], a[..], Comparing(leftArr[i], rightArr[j]))];
      if leftArr[i] <= rightArr[j] {
        a[k] := leftArr[i];
        steps := steps + [SortStep(MergePlace, [k], a[..], PlacingLeft(leftArr[i], k))];
        i := i + 1;
      } else {
        a[k] := rightArr[j];
        steps := steps + [SortStep(MergePlace, [k], a[..], PlacingRight(rightArr[j], k))];
        j := j + 1;
      }
      k := k + 1;
      assert Cursor(Run(a[..], steps), i, j, k) == Heads(cur, leftArr, rightArr, left, mid);
    }
  }

  /** merge's loop copying the rest of the left copy, once the right copy is
      used up (or the left one). */
  method CopyLeft(a: array<int>, leftArr: seq<int>, rightArr: seq<int>, left: int, mid: int,
                  i0: nat, j: nat, k0: nat, steps0: seq<SortStep>)
    returns (steps: seq<SortStep>, i: nat, k: nat)
    requires Within(Cursor(Run(a[..], steps0), i0, j, k0), leftArr, rightArr, left)
    requires mid + 1 == left + |leftArr| && (i0 == |leftArr| || j == |rightArr|)
    modifies a
    ensures Within(Cursor(Run(a[..], steps), i, j, k), leftArr, rightArr, left) && i == |leftArr|
    ensures MergeLoops(Cursor(Run(a[..], steps), i, j, k), leftArr, rightArr, left, mid) ==
            MergeLoops(Cursor(Run(old(a[..]), steps0), i0, j, k0), leftArr, rightArr, left, mid)
  {
    ghost var c0 := Cursor(Run(a[..], steps0), i0, j, k0);
    steps, i, k := steps0, i0, k0;
    while i < |leftArr|
      invariant Within(Cursor(Run(a[..], steps), i, j, k), leftArr, rightArr, left)
      invariant i == |leftArr| || j == |rightArr|
      invariant MergeLoops(Cursor(Run(a[..], steps), i, j, k), leftArr, rightArr, left, mid) ==
                MergeLoops(c0, leftArr, rightArr, left, mid)
      decreases |leftArr| - i
    {
      ghost var cur := Cursor(Run(a[..], steps), i, j, k);
      LoopsRest(cur, leftArr, rightArr, left, mid);
      a[k] := leftArr[i];
      steps := steps + [SortStep(MergePlace, [k], a[..], RemainingLeft(leftArr[i], k))];
      i := i + 1;
      k := k + 1;
      assert Cursor(Run(a[..], steps), i, j, k) == Rest(cur, leftArr, rightArr, left);
    }
  }

  /** merge's loop copying the rest of the right copy, once the left copy is
      used up. */
  method CopyRight(a: array<int>, leftArr: seq<int>, rightArr: seq<int>, left: int, mid: int,
                   i: nat, j0: nat, k0: nat, steps0: seq<SortStep>)
    returns (steps: seq<SortStep>, j: nat, k: nat)
    requires Within(Cursor(Run(a[..], steps0), i, j0, k0), leftArr, rightArr, left)
    requires mid + 1 == left + |leftArr| && i == |leftArr|
    modifies a
    ensures Run(a[..], steps) ==
            MergeLoops(Cursor(Run(old(a[..]), steps0), i, j0, k0), leftArr, rightArr, left, mid).run
  {
    ghost var c0 := Cursor(Run(a[..], steps0), i, j0, k0);
    steps, j, k := steps0, j0, k0;
    while j < |rightArr|
      invariant Within(Cursor(Run(a[..], steps), i, j, k), leftArr, rightArr, left)
      invariant MergeLoops(Cursor(Run(a[..], steps), i, j, k), leftArr, rightArr, left, mid) ==
                MergeLoops(c0, leftArr, rightArr, left, mid)
      decreases |rightArr| - j
    {
      ghost var cur := Cursor(Run(a[..], steps), i, j, k);
      LoopsRest(cur, leftArr, rightArr, left, mid);
      a[k] := rightArr[j];
      steps := steps + [SortStep(MergePlace, [k], a[..], RemainingRight(rightArr[j], k))];
      j := j + 1;
      k := k + 1;
      assert Cursor(Run(a[..], steps), i, j, k) == Rest(cur, leftArr, rightArr, left);
    }
  }
}
