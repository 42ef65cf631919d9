/** mergeSort: the range left..right is announced (PARTITION_START), its two
    halves are sorted recursively, left half first, and then merged.  A merge
    copies both halves, records MERGE_START, walks both copies comparing
    their heads (COMPARE, then MERGE_PLACE of the smaller, the left one on a
    tie), copies what is left of either copy (MERGE_PLACE each), and records
    MERGED over the range. */
module Merging {
  import opened Steps
  import opened Trace

  // ------------------------------------------------------------ reference

  /** left..mid and mid+1..right are adjacent non-empty ranges of an array
      of n elements. */
  predicate Halves(n: int, left: int, mid: int, right: int) {
    0 <= left <= mid < right < n
  }

  /** The merge of two sequences that takes the left head on a tie. */
  function Combine(L: seq<int>, R: seq<int>): (c: seq<int>)
    ensures |c| == |L| + |R|
    decreases |L| + |R|, 1
  {
    if L == [] then R
    else if R == [] then L
    else Pick(L, R)
  }

  /** The merge of two non-empty sequences: the smaller head first, the left
      one on a tie, then the merge of the rest. */
  function Pick(L: seq<int>, R: seq<int>): (c: seq<int>)
    requires L != [] && R != []
    ensures |c| == |L| + |R|
    decreases |L| + |R|, 0
  {
    if L[0] <= R[0] then [L[0]] + Combine(L[1..], R)
    else [R[0]] + Combine(L, R[1..])
  }

  /** `s` with the positions from k on overwritten by `t`. */
  function Fill(s: seq<int>, k: nat, t: seq<int>): seq<int>
    requires k + |t| <= |s|
  {
    s[..k] + t + s[k + |t|..]
  }

  // ------------------------------------------------------------ merge

  /** Java's `i`, `j` and `k` in merge: the next unread position of the left
      copy and of the right copy, and the next position to write. */
  datatype Cursor = Cursor(run: Run, i: nat, j: nat, k: nat)

  /** The cursors stay inside the copies, and `k` is the range's start plus
      the elements already written. */
  predicate Within(c: Cursor, L: seq<int>, R: seq<int>, left: int) {
    var ok := 0 <= left && c.i <= |L| && c.j <= |R| && c.k == left + c.i + c.j && left + |L| + |R| <= |c.run.arr|;
    ok
  }

  /** One round of merge's main loop: COMPARE the two heads (at their places
      in the array), then place the smaller, the left one on a tie. */
  function Heads(c: Cursor, L: seq<int>, R: seq<int>, left: int, mid: int): (p: Cursor)
    requires Within(c, L, R, left) && c.i < |L| && c.j < |R| && mid + 1 == left + |L|
    ensures Within(p, L, R, left) && |p.run.arr| == |c.run.arr| && p.i + p.j == c.i + c.j + 1
  {
    var n := Note(c.run, Compare, [left + c.i, mid + 1 + c.j], Comparing(L[c.i], R[c.j]));
    if L[c.i] <= R[c.j] then
      Cursor(Place(n, c.k, L[c.i], MergePlace, PlacingLeft(L[c.i], c.k)), c.i + 1, c.j, c.k + 1)
    else
      Cursor(Place(n, c.k, R[c.j], MergePlace, PlacingRight(R[c.j], c.k)), c.i, c.j + 1, c.k + 1)
  }

  /** One round of the copying loops, once a copy is used up: place the next
      element of the left copy, or else of the right copy. */
  function Rest(c: Cursor, L: seq<int>, R: seq<int>, left: int): (p: Cursor)
    requires Within(c, L, R, left) && (c.i < |L| || c.j < |R|) && !(c.i < |L| && c.j < |R|)
    ensures Within(p, L, R, left) && |p.run.arr| == |c.run.arr| && p.i + p.j == c.i + c.j + 1
  {
    if c.i < |L| then
      Cursor(Place(c.run, c.k, L[c.i], MergePlace, RemainingLeft(L[c.i], c.k)), c.i + 1, c.j, c.k + 1)
    else
      Cursor(Place(c.run, c.k, R[c.j], MergePlace, RemainingRight(R[c.j], c.k)), c.i, c.j + 1, c.k + 1)
  }

  /** One round of whichever of merge's three loops is running. */
  function Advance(c: Cursor, L: seq<int>, R: seq<int>, left: int, mid: int): (p: Cursor)
    requires Within(c, L, R, left) && (c.i < |L| || c.j < |R|) && mid + 1 == left + |L|
    ensures Within(p, L, R, left) && |p.run.arr| == |c.run.arr| && p.i + p.j == c.i + c.j + 1
  {
    if c.i < |L| && c.j < |R| then Heads(c, L, R, left, mid) else Rest(c, L, R, left)
  }

  /** merge's three loops, run one after the other until both copies are
      used up: the main loop stops when one copy is used up, and then at
      most one of the copying loops has anything to do. */
  function MergeLoops(c: Cursor, L: seq<int>, R: seq<int>, left: int, mid: int): (x: Cursor)
    requires Within(c, L, R, left) && mid + 1 == left + |L|
    ensures Within(x, L, R, left) && x.i == |L| && x.j == |R| && |x.run.arr| == |c.run.arr|
    decreases |L| + |R| - c.i - c.j, 1
  {
    if c.i < |L| || c.j < |R| then Round(c, L, R, left, mid) else c
  }

  /** One round, then the rest of the loops. */
  function Round(c: Cursor, L: seq<int>, R: seq<int>, left: int, mid: int): (x: Cursor)
    requires Within(c, L, R, left) && (c.i < |L| || c.j < |R|) && mid + 1 == left + |L|
    ensures Within(x, L, R, left) && x.i == |L| && x.j == |R| && |x.run.arr| == |c.run.arr|
    decreases |L| + |R| - c.i - c.j, 0
  {
    MergeLoops(Advance(c, L, R, left, mid), L, R, left, mid)
  }

  /** merge up to its loops: MERGE_START, with both copies unread. */
  function Opening(r: Run, left: int, mid: int, right: int): (c: Cursor)
    requires Halves(|r.arr|, left, mid, right)
    ensures Within(c, r.arr[left..mid + 1], r.arr[mid + 1..right + 1], left)
  {
    Cursor(Note(r, MergeStart, Span(left, right), StartingMerge(left, right)), 0, 0, left)
  }

  /** merge of left..mid with mid+1..right: the copies, the loops, then
      MERGED. */
  function MergeRange(r: Run, left: int, mid: int, right: int): (x: Run)
    requires Halves(|r.arr|, left, mid, right)
    ensures |x.arr| == |r.arr|
  {
    var L := r.arr[left..mid + 1];
    var R := r.arr[mid + 1..right + 1];
    var d := MergeLoops(Opening(r, left, mid, right), L, R, left, mid);
    Note(d.run, Merged, Span(left, right), MergedRange(left, right))
  }

  /** What mergeSortHelper does to left..right: nothing to a range of at
      most one element, otherwise Split at the midpoint. */
  function Sorting(r: Run, left: int, right: int): (x: Run)
    requires Fits(|r.arr|, left, right)
    ensures |x.arr| == |r.arr|
    decreases right - left + 1, 1
  {
    if left < right then Split(r, left, right) else r
  }

  /** One level of mergeSortHelper on a range of two or more elements:
      announce it (PARTITION_START), sort left..mid, sort mid+1..right,
      then merge the two. */
  function Split(r: Run, left: int, right: int): (x: Run)
    requires Wide(|r.arr|, left, right)
    ensures |x.arr| == |r.arr|
    decreases right - left + 1, 0
  {
    var mid := left + (right - left) / 2;
    var d := Note(r, PartitionStart, Span(left, right), Dividing(left, right));
    MergeRange(Sorting(Sorting(d, left, mid), mid + 1, right), left, mid, right)
  }

  /** What mergeSort leaves in the array and returns, for input `s`: the
      helper over the whole array, then COMPLETED. */
  function MergeSortRun(s: seq<int>): Run {
    Note(Sorting(Start(s), 0, |s| - 1), Completed, [], MergeDone)
  }

  // ------------------------------------------------------------ unfolding

  lemma LoopsUnfold(c: Cursor, L: seq<int>, R: seq<int>, left: int, mid: int)
    requires Within(c, L, R, left) && mid + 1 == left + |L| && (c.i < |L| || c.j < |R|)
    ensures MergeLoops(c, L, R, left, mid) == MergeLoops(Advance(c, L, R, left, mid), L, R, left, mid)
  {
  }

  lemma LoopsHeads(c: Cursor, L: seq<int>, R: seq<int>, left: int, mid: int)
    requires Within(c, L, R, left) && mid + 1 == left + |L| && c.i < |L| && c.j < |R|
    ensures MergeLoops(c, L, R, left, mid) == MergeLoops(Heads(c, L, R, left, mid), L, R, left, mid)
  {
    LoopsUnfold(c, L, R, left, mid);
  }

  lemma LoopsRest(c: Cursor, L: seq<int>, R: seq<int>, left: int, mid: int)
    requires Within(c, L, R, left) && mid + 1 == left + |L| && (c.i < |L| || c.j < |R|)
    requires !(c.i < |L| && c.j < |R|)
    ensures MergeLoops(c, L, R, left, mid) == MergeLoops(Rest(c, L, R, left), L, R, left, mid)
  {
    LoopsUnfold(c, L, R, left, mid);
  }

  // ------------------------------------------------------------ mergeSortHelper's promise

  /** What merge leaves in the array: the merge of the two halves as they
      stood, written over left..right. */
  function MergeArr(s: seq<int>, left: int, mid: int, right: int): (t: seq<int>)
    requires Halves(|s|, left, mid, right)
    ensures |t| == |s|
  {
    Fill(s, left, Combine(s[left..mid + 1], s[mid + 1..right + 1]))
  }

  /** What mergeSortHelper leaves in the array: both halves sorted, left one
      first, then merged. */
  function MSort(s: seq<int>, left: int, right: int): (t: seq<int>)
    requires Fits(|s|, left, right)
    ensures |t| == |s|
    decreases right - left + 1, 1
  {
    if left < right then MSplit(s, left, right) else s
  }

  /** MSort of a range of two or more elements. */
  function MSplit(s: seq<int>, left: int, right: int): (t: seq<int>)
    requires Wide(|s|, left, right)
    ensures |t| == |s|
    decreases right - left + 1, 0
  {
    var mid := left + (right - left) / 2;
    MergeArr(MSort(MSort(s, left, mid), mid + 1, right), left, mid, right)
  }

  // ------------------------------------------------------------ the merge of two sequences

  predicate LowerBound(x: int, s: seq<int>) {
    forall k :: 0 <= k < |s| ==> x <= s[k]
  }

  lemma {:induction false} CombineBound(x: int, L: seq<int>, R: seq<int>)
    requires LowerBound(x, L) && LowerBound(x, R)
    ensures LowerBound(x, Combine(L, R))
    decreases |L| + |R|
  {
    if L != [] && R != [] {
      if L[0] <= R[0] {
        CombineBound(x, L[1..], R);
      } else {
        CombineBound(x, L, R[1..]);
      }
    }
  }

  lemma ConsSorted(x: int, s: seq<int>)
    requires SortedSeq(s) && LowerBound(x, s)
    ensures SortedSeq([x] + s)
  {
  }

  /** Merging two sorted sequences gives a sorted sequence. */
  lemma {:induction false} CombineSorted(L: seq<int>, R: seq<int>)
    requires SortedSeq(L) && SortedSeq(R)
    ensures SortedSeq(Combine(L, R))
    decreases |L| + |R|
  {
    if L != [] && R != [] {
      if L[0] <= R[0] {
        CombineSorted(L[1..], R);
        CombineBound(L[0], L[1..], R);
        ConsSorted(L[0], Combine(L[1..], R));
      } else {
        CombineSorted(L, R[1..]);
        CombineBound(R[0], L, R[1..]);
        ConsSorted(R[0], Combine(L, R[1..]));
      }
    }
  }

  lemma CombineUnfold(L: seq<int>, R: seq<int>)
    requires L != [] && R != []
    ensures L[0] <= R[0] ==> Combine(L, R) == [L[0]] + Combine(L[1..], R)
    ensures L[0] > R[0] ==> Combine(L, R) == [R[0]] + Combine(L, R[1..])
  {
  }

  lemma HeadMultiset(s: seq<int>)
    requires s != []
    ensures multiset(s) == multiset{s[0]} + multiset(s[1..])
  {
    assert s == [s[0]] + s[1..];
  }

  /** Merging keeps every element of both sequences, and adds none. */
  lemma {:induction false} CombinePerm(L: seq<int>, R: seq<int>)
    ensures multiset(Combine(L, R)) == multiset(L) + multiset(R)
    decreases |L| + |R|
  {
    if L != [] && R != [] {
      CombineUnfold(L, R);
      if L[0] <= R[0] {
        CombinePerm(L[1..], R);
        HeadMultiset(L);
        HeadMultiset(Combine(L, R));
      } else {
        CombinePerm(L, R[1..]);
        HeadMultiset(R);
        HeadMultiset(Combine(L, R));
      }
    }
  }

  lemma FillStep(s: seq<int>, k: nat, x: int, t: seq<int>)
    requires k + 1 + |t| <= |s|
    ensures Fill(s[k := x], k + 1, t) == Fill(s, k, [x] + t)
  {
    assert s[k := x][..k + 1] == s[..k] + [x];
  }

  /** Writing the left head at k, then the merge of what is left from k+1
      on, lays down the merge from k on, when the left head goes first. */
  lemma FillTakesLeft(s: seq<int>, k: nat, L: seq<int>, R: seq<int>, i: nat, j: nat)
    requires i < |L| && j <= |R| && (j == |R| || L[i] <= R[j]) && k + (|L| - i) + (|R| - j) <= |s|
    ensures Fill(s[k := L[i]], k + 1, Combine(L[i + 1..], R[j..])) == Fill(s, k, Combine(L[i..], R[j..]))
  {
    assert L[i..] == [L[i]] + L[i + 1..];
    assert Combine(L[i..], R[j..]) == [L[i]] + Combine(L[i + 1..], R[j..]);
    FillStep(s, k, L[i], Combine(L[i + 1..], R[j..]));
  }

  /** The same for the right head, which goes first when it is strictly
      smaller or the left part is used up. */
  lemma FillTakesRight(s: seq<int>, k: nat, L: seq<int>, R: seq<int>, i: nat, j: nat)
    requires i <= |L| && j < |R| && (i == |L| || L[i] > R[j]) && k + (|L| - i) + (|R| - j) <= |s|
    ensures Fill(s[k := R[j]], k + 1, Combine(L[i..], R[j + 1..])) == Fill(s, k, Combine(L[i..], R[j..]))
  {
    assert R[j..] == [R[j]] + R[j + 1..];
    assert Combine(L[i..], R[j..]) == [R[j]] + Combine(L[i..], R[j + 1..]);
    FillStep(s, k, R[j], Combine(L[i..], R[j + 1..]));
  }

  // ------------------------------------------------------------ the loops write the merge

  /** What is left for merge to write: the current array with the merge of
      the unread parts of both copies laid down from position k on. */
  function Target(c: Cursor, L: seq<int>, R: seq<int>, left: int): seq<int>
    requires Within(c, L, R, left)
  {
    Fill(c.run.arr, c.k, Combine(L[c.i..], R[c.j..]))
  }

  lemma HeadsKeeps(c: Cursor, L: seq<int>, R: seq<int>, left: int, mid: int)
    requires Within(c, L, R, left) && c.i < |L| && c.j < |R| && mid + 1 == left + |L|
    ensures Target(Heads(c, L, R, left, mid), L, R, left) == Target(c, L, R, left)
  {
    if L[c.i] <= R[c.j] {
      FillTakesLeft(c.run.arr, c.k, L, R, c.i, c.j);
    } else {
      FillTakesRight(c.run.arr, c.k, L, R, c.i, c.j);
    }
  }

  lemma RestKeeps(c: Cursor, L: seq<int>, R: seq<int>, left: int)
    requires Within(c, L, R, left) && (c.i < |L| || c.j < |R|) && !(c.i < |L| && c.j < |R|)
    ensures Target(Rest(c, L, R, left), L, R, left) == Target(c, L, R, left)
  {
    if c.i < |L| {
      FillTakesLeft(c.run.arr, c.k, L, R, c.i, c.j);
    } else {
      FillTakesRight(c.run.arr, c.k, L, R, c.i, c.j);
    }
  }

  /** The loops leave in the array exactly what was left to write. */
  lemma {:induction false} LoopsFill(c: Cursor, L: seq<int>, R: seq<int>, left: int, mid: int)
    requires Within(c, L, R, left) && mid + 1 == left + |L|
    ensures MergeLoops(c, L, R, left, mid).run.arr == Target(c, L, R, left)
    decreases |L| + |R| - c.i - c.j
  {
    if c.i < |L| && c.j < |R| {
      LoopsHeads(c, L, R, left, mid);
      HeadsKeeps(c, L, R, left, mid);
      LoopsFill(Heads(c, L, R, left, mid), L, R, left, mid);
    } else if c.i < |L| || c.j < |R| {
      LoopsRest(c, L, R, left, mid);
      RestKeeps(c, L, R, left);
      LoopsFill(Rest(c, L, R, left), L, R, left, mid);
    } else {
      assert L[c.i..] == [] && R[c.j..] == [];
      assert c.run.arr[..c.k] + c.run.arr[c.k..] == c.run.arr;
    }
  }

  lemma HeadsGood(init: seq<int>, c: Cursor, L: seq<int>, R: seq<int>, left: int, mid: int)
    requires Within(c, L, R, left) && c.i < |L| && c.j < |R| && mid + 1 == left + |L|
    requires Good(init, c.run)
    ensures Good(init, Heads(c, L, R, left, mid).run)
  {
    var n := Note(c.run, Compare, [left + c.i, mid + 1 + c.j], Comparing(L[c.i], R[c.j]));
    NoteGood(init, c.run, Compare, [left + c.i, mid + 1 + c.j], Comparing(L[c.i], R[c.j]));
    if L[c.i] <= R[c.j] {
      PlaceGood(init, n, c.k, L[c.i], MergePlace, PlacingLeft(L[c.i], c.k));
    } else {
      PlaceGood(init, n, c.k, R[c.j], MergePlace, PlacingRight(R[c.j], c.k));
    }
  }

  lemma RestGood(init: seq<int>, c: Cursor, L: seq<int>, R: seq<int>, left: int)
    requires Within(c, L, R, left) && (c.i < |L| || c.j < |R|) && !(c.i < |L| && c.j < |R|)
    requires Good(init, c.run)
    ensures Good(init, Rest(c, L, R, left).run)
  {
    if c.i < |L| {
      PlaceGood(init, c.run, c.k, L[c.i], MergePlace, RemainingLeft(L[c.i], c.k));
    } else {
      PlaceGood(init, c.run, c.k, R[c.j], MergePlace, RemainingRight(R[c.j], c.k));
    }
  }

  lemma {:induction false} LoopsGood(init: seq<int>, c: Cursor, L: seq<int>, R: seq<int>, left: int, mid: int)
    requires Within(c, L, R, left) && mid + 1 == left + |L| && Good(init, c.run)
    ensures Good(init, MergeLoops(c, L, R, left, mid).run)
    decreases |L| + |R| - c.i - c.j
  {
    if c.i < |L| && c.j < |R| {
      LoopsHeads(c, L, R, left, mid);
      HeadsGood(init, c, L, R, left, mid);
      LoopsGood(init, Heads(c, L, R, left, mid), L, R, left, mid);
    } else if c.i < |L| || c.j < |R| {
      LoopsRest(c, L, R, left, mid);
      RestGood(init, c, L, R, left);
      LoopsGood(init, Rest(c, L, R, left), L, R, left, mid);
    }
  }

  /** A round of the main loop records one COMPARE and one MERGE_PLACE. */
  lemma HeadsCount(c: Cursor, L: seq<int>, R: seq<int>, left: int, mid: int, t: StepType)
    requires Within(c, L, R, left) && c.i < |L| && c.j < |R| && mid + 1 == left + |L|
    ensures Count(Heads(c, L, R, left, mid).run.steps, t) ==
            Count(c.run.steps, t) + (if t == Compare || t == MergePlace then 1 else 0)
  {
    var n := Note(c.run, Compare, [left + c.i, mid + 1 + c.j], Comparing(L[c.i], R[c.j]));
    NoteCount(c.run, Compare, [left + c.i, mid + 1 + c.j], Comparing(L[c.i], R[c.j]), t);
    if L[c.i] <= R[c.j] {
      PlaceCount(n, c.k, L[c.i], MergePlace, PlacingLeft(L[c.i], c.k), t);
    } else {
      PlaceCount(n, c.k, R[c.j], MergePlace, PlacingRight(R[c.j], c.k), t);
    }
  }

  /** A round of a copying loop records one MERGE_PLACE. */
  lemma RestCount(c: Cursor, L: seq<int>, R: seq<int>, left: int, t: StepType)
    requires Within(c, L, R, left) && (c.i < |L| || c.j < |R|) && !(c.i < |L| && c.j < |R|)
    ensures Count(Rest(c, L, R, left).run.steps, t) == Count(c.run.steps, t) + (if t == MergePlace then 1 else 0)
  {
    if c.i < |L| {
      PlaceCount(c.run, c.k, L[c.i], MergePlace, RemainingLeft(L[c.i], c.k), t);
    } else {
      PlaceCount(c.run, c.k, R[c.j], MergePlace, RemainingRight(R[c.j], c.k), t);
    }
  }

  /** The loops place every unread element once, and record nothing else but
      COMPAREs. */
  lemma {:induction false} LoopsCount(c: Cursor, L: seq<int>, R: seq<int>, left: int, mid: int, t: StepType)
    requires Within(c, L, R, left) && mid + 1 == left + |L| && t != Compare
    ensures Count(MergeLoops(c, L, R, left, mid).run.steps, t) ==
            Count(c.run.steps, t) + (if t == MergePlace then |L| + |R| - c.i - c.j else 0)
    decreases |L| + |R| - c.i - c.j
  {
    if c.i < |L| && c.j < |R| {
      LoopsHeads(c, L, R, left, mid);
      HeadsCount(c, L, R, left, mid, t);
      LoopsCount(Heads(c, L, R, left, mid), L, R, left, mid, t);
    } else if c.i < |L| || c.j < |R| {
      LoopsRest(c, L, R, left, mid);
      RestCount(c, L, R, left, t);
      LoopsCount(Rest(c, L, R, left), L, R, left, mid, t);
    }
  }

  /** The main loop compares fewer times than there are elements left: the
      last element placed is always placed by a copying loop. */
  lemma {:induction false} LoopsCompares(c: Cursor, L: seq<int>, R: seq<int>, left: int, mid: int)
    requires Within(c, L, R, left) && mid + 1 == left + |L| && (c.i < |L| || c.j < |R|)
    ensures Count(MergeLoops(c, L, R, left, mid).run.steps, Compare) <
            Count(c.run.steps, Compare) + |L| + |R| - c.i - c.j
    decreases |L| + |R| - c.i - c.j
  {
    if c.i < |L| && c.j < |R| {
      LoopsHeads(c, L, R, left, mid);
      HeadsCount(c, L, R, left, mid, Compare);
      LoopsCompares(Heads(c, L, R, left, mid), L, R, left, mid);
    } else {
      var p := Rest(c, L, R, left);
      LoopsRest(c, L, R, left, mid);
      RestCount(c, L, R, left, Compare);
      if p.i < |L| || p.j < |R| {
        LoopsCompares(p, L, R, left, mid);
      }
    }
  }

  lemma HeadsInRange(c: Cursor, L: seq<int>, R: seq<int>, left: int, mid: int)
    requires Within(c, L, R, left) && c.i < |L| && c.j < |R| && mid + 1 == left + |L|
    requires AllInRange(c.run.steps)
    ensures AllInRange(Heads(c, L, R, left, mid).run.steps)
  {
  }

  lemma {:induction false} LoopsInRange(c: Cursor, L: seq<int>, R: seq<int>, left: int, mid: int)
    requires Within(c, L, R, left) && mid + 1 == left + |L| && AllInRange(c.run.steps)
    ensures AllInRange(MergeLoops(c, L, R, left, mid).run.steps)
    decreases |L| + |R| - c.i - c.j
  {
    if c.i < |L| && c.j < |R| {
      LoopsHeads(c, L, R, left, mid);
      HeadsInRange(c, L, R, left, mid);
      LoopsInRange(Heads(c, L, R, left, mid), L, R, left, mid);
    } else if c.i < |L| || c.j < |R| {
      LoopsRest(c, L, R, left, mid);
      LoopsInRange(Rest(c, L, R, left), L, R, left, mid);
    }
  }

  /** The loops only append: the steps recorded before them stay as they were. */
  lemma {:induction false} LoopsPrefix(c: Cursor, L: seq<int>, R: seq<int>, left: int, mid: int)
    requires Within(c, L, R, left) && mid + 1 == left + |L|
    ensures var x := MergeLoops(c, L, R, left, mid).run.steps;
            |c.run.steps| <= |x| && x[..|c.run.steps|] == c.run.steps
    decreases |L| + |R| - c.i - c.j
  {
    if c.i < |L| || c.j < |R| {
      var p := Advance(c, L, R, left, mid);
      LoopsUnfold(c, L, R, left, mid);
      LoopsPrefix(p, L, R, left, mid);
      var x := MergeLoops(p, L, R, left, mid).run.steps;
      assert p.run.steps[..|c.run.steps|] == c.run.steps;
      assert x[..|c.run.steps|] == x[..|p.run.steps|][..|c.run.steps|];
    }
  }

  // ------------------------------------------------------------ what a merge does

  /** merge writes, over left..right, the merge of the two halves as they
      stood, and leaves the rest of the array alone. */
  lemma MergeRangeArr(r: Run, left: int, mid: int, right: int)
    requires Halves(|r.arr|, left, mid, right)
    ensures MergeRange(r, left, mid, right).arr == MergeArr(r.arr, left, mid, right)
  {
    var L := r.arr[left..mid + 1];
    var R := r.arr[mid + 1..right + 1];
    LoopsFill(Opening(r, left, mid, right), L, R, left, mid);
    assert L[0..] == L && R[0..] == R;
  }

  lemma MergeRangeGood(init: seq<int>, r: Run, left: int, mid: int, right: int)
    requires Halves(|r.arr|, left, mid, right) && Good(init, r)
    ensures Good(init, MergeRange(r, left, mid, right))
  {
    var c := Opening(r, left, mid, right);
    var L := r.arr[left..mid + 1];
    var R := r.arr[mid + 1..right + 1];
    NoteGood(init, r, MergeStart, Span(left, right), StartingMerge(left, right));
    LoopsGood(init, c, L, R, left, mid);
    var d := MergeLoops(c, L, R, left, mid);
    NoteGood(init, d.run, Merged, Span(left, right), MergedRange(left, right));
  }

  /** A merge records one MERGE_START, one MERGE_PLACE per element of the
      range and one MERGED, besides its COMPAREs. */
  lemma MergeRangeCount(r: Run, left: int, mid: int, right: int, t: StepType)
    requires Halves(|r.arr|, left, mid, right) && t != Compare
    ensures Count(MergeRange(r, left, mid, right).steps, t) == Count(r.steps, t) +
              (if t == MergePlace then right + 1 - left else if t == MergeStart || t == Merged then 1 else 0)
  {
    var c := Opening(r, left, mid, right);
    var L := r.arr[left..mid + 1];
    var R := r.arr[mid + 1..right + 1];
    NoteCount(r, MergeStart, Span(left, right), StartingMerge(left, right), t);
    LoopsCount(c, L, R, left, mid, t);
    var d := MergeLoops(c, L, R, left, mid);
    NoteCount(d.run, Merged, Span(left, right), MergedRange(left, right), t);
  }

  /** A merge records no COMPLETED step. */
  lemma MergeRangeLacks(r: Run, left: int, mid: int, right: int)
    requires Halves(|r.arr|, left, mid, right) && Lacks(r.steps, Completed)
    ensures Lacks(MergeRange(r, left, mid, right).steps, Completed)
  {
    LacksCount(r.steps, Completed);
    MergeRangeCount(r, left, mid, right, Completed);
    LacksCount(MergeRange(r, left, mid, right).steps, Completed);
  }

  /** A merge of w elements compares at most w-1 times. */
  lemma MergeRangeCompares(r: Run, left: int, mid: int, right: int)
    requires Halves(|r.arr|, left, mid, right)
    ensures Count(MergeRange(r, left, mid, right).steps, Compare) <= Count(r.steps, Compare) + right - left
  {
    var c := Opening(r, left, mid, right);
    var L := r.arr[left..mid + 1];
    var R := r.arr[mid + 1..right + 1];
    NoteCount(r, MergeStart, Span(left, right), StartingMerge(left, right), Compare);
    LoopsCompares(c, L, R, left, mid);
    var d := MergeLoops(c, L, R, left, mid);
    NoteCount(d.run, Merged, Span(left, right), MergedRange(left, right), Compare);
  }

  lemma MergeRangeInRange(r: Run, left: int, mid: int, right: int)
    requires Halves(|r.arr|, left, mid, right) && AllInRange(r.steps)
    ensures AllInRange(MergeRange(r, left, mid, right).steps)
  {
    var c := Opening(r, left, mid, right);
    LoopsInRange(c, r.arr[left..mid + 1], r.arr[mid + 1..right + 1], left, mid);
  }

  /** A merge appends to the steps, opening with MERGE_START and closing
      with MERGED, both over the whole range. */
  lemma MergeRangeSteps(r: Run, left: int, mid: int, right: int)
    requires Halves(|r.arr|, left, mid, right)
    ensures var x := MergeRange(r, left, mid, right);
            |r.steps| < |x.steps| && x.steps[..|r.steps|] == r.steps &&
            x.steps[|r.steps|] == SortStep(MergeStart, Span(left, right), r.arr, StartingMerge(left, right)) &&
            x.steps[|x.steps| - 1] == SortStep(Merged, Span(left, right), x.arr, MergedRange(left, right))
  {
    var c := Opening(r, left, mid, right);
    LoopsPrefix(c, r.arr[left..mid + 1], r.arr[mid + 1..right + 1], left, mid);
    var d := MergeLoops(c, r.arr[left..mid + 1], r.arr[mid + 1..right + 1], left, mid);
    assert d.run.steps[..|c.run.steps|] == c.run.steps;
    assert d.run.steps[|r.steps|] == c.run.steps[|r.steps|];
    assert d.run.steps[..|r.steps|] == c.run.steps[..|r.steps|];
  }

  // ------------------------------------------------------------ sorting a range

  /** The positions before k, from k on, and after the written part of a
      Fill. */
  lemma FillParts(s: seq<int>, k: nat, t: seq<int>)
    requires k + |t| <= |s|
    ensures |Fill(s, k, t)| == |s| && Fill(s, k, t)[..k] == s[..k]
    ensures Fill(s, k, t)[k..k + |t|] == t && Fill(s, k, t)[k + |t|..] == s[k + |t|..]
  {
  }

  /** After both halves are sorted, the left half is what the first call
      left, sorted and a permutation of the original left half, and nothing
      before the range has moved. */
  lemma LeftHalf(a0: seq<int>, a1: seq<int>, a2: seq<int>, left: int, mid: int, right: int)
    requires Halves(|a0|, left, mid, right)
    requires SortsRange(a0, a1, left, mid) && SortsRange(a1, a2, mid + 1, right)
    ensures SortedSeq(a2[left..mid + 1]) && multiset(a2[left..mid + 1]) == multiset(a0[left..mid + 1])
    ensures a2[..left] == a0[..left]
  {
    assert a2[left..mid + 1] == a2[..mid + 1][left..] == a1[..mid + 1][left..] == a1[left..mid + 1];
    assert a2[..left] == a2[..mid + 1][..left] == a1[..mid + 1][..left] == a1[..left];
  }

  /** After both halves are sorted, the right half is sorted and a
      permutation of the original right half, and nothing after the range
      has moved. */
  lemma RightHalf(a0: seq<int>, a1: seq<int>, a2: seq<int>, left: int, mid: int, right: int)
    requires Halves(|a0|, left, mid, right)
    requires SortsRange(a0, a1, left, mid) && SortsRange(a1, a2, mid + 1, right)
    ensures SortedSeq(a2[mid + 1..right + 1]) && multiset(a2[mid + 1..right + 1]) == multiset(a0[mid + 1..right + 1])
    ensures a2[right + 1..] == a0[right + 1..]
  {
    assert a1[mid + 1..right + 1] == a1[mid + 1..][..right - mid] == a0[mid + 1..][..right - mid] == a0[mid + 1..right + 1];
    assert a1[right + 1..] == a1[mid + 1..][right - mid..] == a0[mid + 1..][right - mid..] == a0[right + 1..];
  }

  /** Merging two sorted halves sorts the range, keeps its elements, and
      leaves the rest of the array alone. */
  lemma MergeSortsRange(s: seq<int>, left: int, mid: int, right: int)
    requires Halves(|s|, left, mid, right)
    requires SortedSeq(s[left..mid + 1]) && SortedSeq(s[mid + 1..right + 1])
    ensures SortsRange(s, MergeArr(s, left, mid, right), left, right)
  {
    var L := s[left..mid + 1];
    var R := s[mid + 1..right + 1];
    CombineSorted(L, R);
    CombinePerm(L, R);
    FillParts(s, left, Combine(L, R));
    assert s[left..right + 1] == L + R;
  }

  /** Sorting the left half, then the right half, then merging them sorts
      the whole range. */
  lemma MergeHalves(a0: seq<int>, a1: seq<int>, a2: seq<int>, left: int, mid: int, right: int)
    requires Halves(|a0|, left, mid, right)
    requires SortsRange(a0, a1, left, mid) && SortsRange(a1, a2, mid + 1, right)
    ensures SortsRange(a0, MergeArr(a2, left, mid, right), left, right)
  {
    LeftHalf(a0, a1, a2, left, mid, right);
    RightHalf(a0, a1, a2, left, mid, right);
    MergeSortsRange(a2, left, mid, right);
    assert a0[left..right + 1] == a0[left..mid + 1] + a0[mid + 1..right + 1];
    assert a2[left..right + 1] == a2[left..mid + 1] + a2[mid + 1..right + 1];
  }

  /** mergeSortHelper sorts its range: MSort leaves left..right sorted and
      a permutation of what was there, and touches nothing else. */
  lemma {:induction false} MSortSorts(s: seq<int>, left: int, right: int)
    requires Fits(|s|, left, right)
    ensures SortsRange(s, MSort(s, left, right), left, right)
    decreases right - left + 1
  {
    if left < right {
      var mid := left + (right - left) / 2;
      var s1 := MSort(s, left, mid);
      MSortSorts(s, left, mid);
      MSortSorts(s1, mid + 1, right);
      MergeHalves(s, s1, MSort(s1, mid + 1, right), left, mid, right);
    }
  }

  /** A merge of two sorted halves leaves left..right sorted and a
      permutation of what was there, and the rest of the array as it was;
      its closing MERGED step shows exactly that array. */
  lemma MergeRangeSorts(r: Run, left: int, mid: int, right: int)
    requires Halves(|r.arr|, left, mid, right)
    requires SortedSeq(r.arr[left..mid + 1]) && SortedSeq(r.arr[mid + 1..right + 1])
    ensures var x := MergeRange(r, left, mid, right);
            SortsRange(r.arr, x.arr, left, right) && x.steps[|x.steps| - 1].arrayState == x.arr
  {
    MergeRangeArr(r, left, mid, right);
    MergeRangeSteps(r, left, mid, right);
    MergeSortsRange(r.arr, left, mid, right);
  }

  // ------------------------------------------------------------ what mergeSortHelper does

  /** mergeSortHelper leaves in the array what MSort describes. */
  lemma {:induction false} SortingArr(r: Run, left: int, right: int)
    requires Fits(|r.arr|, left, right)
    ensures Sorting(r, left, right).arr == MSort(r.arr, left, right)
    decreases right - left + 1, 2
  {
    if left < right {
      SplitArr(r, left, right);
    }
  }

  lemma {:induction false} SplitArr(r: Run, left: int, right: int)
    requires Wide(|r.arr|, left, right)
    ensures Split(r, left, right).arr == MSplit(r.arr, left, right)
    decreases right - left + 1, 1
  {
    var mid := left + (right - left) / 2;
    var d := Note(r, PartitionStart, Span(left, right), Dividing(left, right));
    SortingArr(d, left, mid);
    HalfArr(Sorting(d, left, mid), left, mid, right);
  }

  /** Sorting the right half, then merging, leaves MSort's right half merged
      with the left. */
  lemma {:induction false} HalfArr(r: Run, left: int, mid: int, right: int)
    requires Halves(|r.arr|, left, mid, right)
    ensures MergeRange(Sorting(r, mid + 1, right), left, mid, right).arr ==
            MergeArr(MSort(r.arr, mid + 1, right), left, mid, right)
    decreases right - left + 1, 0
  {
    SortingArr(r, mid + 1, right);
    MergeRangeArr(Sorting(r, mid + 1, right), left, mid, right);
  }

  /** mergeSortHelper keeps a faithful replay faithful. */
  lemma {:induction false} SortingGood(init: seq<int>, r: Run, left: int, right: int)
    requires Fits(|r.arr|, left, right) && Good(init, r)
    ensures Good(init, Sorting(r, left, right))
    decreases right - left + 1, 2
  {
    if left < right {
      SplitGood(init, r, left, right);
    }
  }

  lemma {:induction false} SplitGood(init: seq<int>, r: Run, left: int, right: int)
    requires Wide(|r.arr|, left, right) && Good(init, r)
    ensures Good(init, Split(r, left, right))
    decreases right - left + 1, 1
  {
    var mid := left + (right - left) / 2;
    var h := Span(left, right);
    var d := Note(r, PartitionStart, h, Dividing(left, right));
    NoteGood(init, r, PartitionStart, h, Dividing(left, right));
    SortingGood(init, d, left, mid);
    HalfGood(init, Sorting(d, left, mid), left, mid, right);
  }

  /** Sorting the right half, then merging, keeps a faithful replay faithful. */
  lemma {:induction false} HalfGood(init: seq<int>, r: Run, left: int, mid: int, right: int)
    requires Halves(|r.arr|, left, mid, right) && Good(init, r)
    ensures Good(init, MergeRange(Sorting(r, mid + 1, right), left, mid, right))
    decreases right - left + 1, 0
  {
    SortingGood(init, r, mid + 1, right);
    MergeRangeGood(init, Sorting(r, mid + 1, right), left, mid, right);
  }

  /** mergeSortHelper highlights only positions of the array. */
  lemma {:induction false} SortingInRange(r: Run, left: int, right: int)
    requires Fits(|r.arr|, left, right) && AllInRange(r.steps)
    ensures AllInRange(Sorting(r, left, right).steps)
    decreases right - left + 1, 1
  {
    if left < right {
      SplitInRange(r, left, right);
    }
  }

  lemma {:induction false} SplitInRange(r: Run, left: int, right: int)
    requires Wide(|r.arr|, left, right) && AllInRange(r.steps)
    ensures AllInRange(Split(r, left, right).steps)
    decreases right - left + 1, 0
  {
    var mid := left + (right - left) / 2;
    var d := Note(r, PartitionStart, Span(left, right), Dividing(left, right));
    var r1 := Sorting(d, left, mid);
    SortingInRange(d, left, mid);
    SortingInRange(r1, mid + 1, right);
    MergeRangeInRange(Sorting(r1, mid + 1, right), left, mid, right);
  }

  /** mergeSortHelper records no COMPLETED step. */
  lemma {:induction false} SortingLacks(r: Run, left: int, right: int)
    requires Fits(|r.arr|, left, right) && Lacks(r.steps, Completed)
    ensures Lacks(Sorting(r, left, right).steps, Completed)
    decreases right - left + 1, 1
  {
    if left < right {
      SplitLacks(r, left, right);
    }
  }

  lemma {:induction false} SplitLacks(r: Run, left: int, right: int)
    requires Wide(|r.arr|, left, right) && Lacks(r.steps, Completed)
    ensures Lacks(Split(r, left, right).steps, Completed)
    decreases right - left + 1, 0
  {
    var mid := left + (right - left) / 2;
    var d := Note(r, PartitionStart, Span(left, right), Dividing(left, right));
    var r1 := Sorting(d, left, mid);
    SortingLacks(d, left, mid);
    SortingLacks(r1, mid + 1, right);
    MergeRangeLacks(Sorting(r1, mid + 1, right), left, mid, right);
  }

  /** mergeSort's steps replay the array's history from the input, highlight
      only positions of the array, and end in their one COMPLETED step. */
  lemma MergeSortTrace(s: seq<int>)
    ensures var y := MergeSortRun(s);
            Good(s, y) && AllInRange(y.steps) && EndsCompleted(y.steps, y.arr)
  {
    StartGood(s);
    SortingGood(s, Start(s), 0, |s| - 1);
    SortingInRange(Start(s), 0, |s| - 1);
    SortingLacks(Start(s), 0, |s| - 1);
    EndsReplay(s, Sorting(Start(s), 0, |s| - 1), MergeDone);
  }

  /** mergeSort leaves MSort of the input in the array: sorted, and a
      permutation of the input. */
  lemma MergeSortResult(s: seq<int>)
    ensures var y := MergeSortRun(s);
            y.arr == MSort(s, 0, |s| - 1) && SortedSeq(y.arr) && multiset(y.arr) == multiset(s)
  {
    SortingArr(Start(s), 0, |s| - 1);
    MSortSorts(s, 0, |s| - 1);
    EndsSorted(s, Sorting(Start(s), 0, |s| - 1).arr);
  }
}
