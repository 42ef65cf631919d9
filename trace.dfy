/** The state a trace generator carries while it runs: the array as it now
    stands and the steps recorded so far.  Every generator records through the
    four primitives below, and each primitive keeps a run faithful to the
    array's history. */
module Trace {
  import opened Steps

  datatype Run = Run(arr: seq<int>, steps: seq<SortStep>)

  /** `r` was reached from `init`: its steps replay from `init` and the last
      snapshot is the current array. */
  predicate Good(init: seq<int>, r: Run) {
    Replays(init, r.steps) && Final(init, r.steps) == r.arr
  }

  /** The run that starts a generator on `s`: the array untouched, no steps. */
  function Start(s: seq<int>): Run {
    Run(s, [])
  }

  /** A generator starts out faithful: nothing recorded, nothing changed. */
  lemma StartGood(s: seq<int>)
    ensures Good(s, Start(s))
  {
  }

  /** A step kind whose event leaves the array unchanged. */
  predicate Observes(kind: StepType) {
    var ok := !(kind.Swap? || kind.PivotFinal? || kind.Shift? || kind.MergePlace? || kind.Insert?);
    ok
  }

  function Append(r: Run, s: SortStep): Run {
    Run(s.arrayState, r.steps + [s])
  }

  /** Records an event that changes nothing, with a snapshot of the array. */
  function Note(r: Run, kind: StepType, h: seq<int>, d: Message): Run {
    Append(r, SortStep(kind, h, r.arr, d))
  }

  /** Exchanges positions p and q, then records the exchange. */
  function Exchange(r: Run, p: int, q: int, kind: StepType, d: Message): Run
    requires InBounds(p, r.arr) && InBounds(q, r.arr)
  {
    Append(r, SortStep(kind, [p, q], r.arr[p := r.arr[q]][q := r.arr[p]], d))
  }

  /** Writes v at position k, then records the write. */
  function Place(r: Run, k: int, v: int, kind: StepType, d: Message): Run
    requires InBounds(k, r.arr)
  {
    Append(r, SortStep(kind, [k], r.arr[k := v], d))
  }

  /** Copies position j into j+1, then records the shift. */
  function ShiftRight(r: Run, j: int, d: Message): Run
    requires 0 <= j && j + 1 < |r.arr|
  {
    Append(r, SortStep(Shift, [j, j + 1], r.arr[j + 1 := r.arr[j]], d))
  }

  /** Appending a step that follows the current array keeps the run faithful. */
  lemma AppendGood(init: seq<int>, r: Run, s: SortStep)
    requires Good(init, r) && Follows(r.arr, s)
    ensures Good(init, Append(r, s))
  {
    Extend(init, r.steps, s);
  }

  lemma NoteGood(init: seq<int>, r: Run, kind: StepType, h: seq<int>, d: Message)
    requires Good(init, r) && Observes(kind)
    ensures Good(init, Note(r, kind, h, d))
  {
    AppendGood(init, r, SortStep(kind, h, r.arr, d));
  }

  lemma ExchangeGood(init: seq<int>, r: Run, p: int, q: int, kind: StepType, d: Message)
    requires Good(init, r) && InBounds(p, r.arr) && InBounds(q, r.arr) && p != q
    requires kind == Swap || kind == PivotFinal
    ensures Good(init, Exchange(r, p, q, kind, d))
    ensures multiset(Exchange(r, p, q, kind, d).arr) == multiset(r.arr)
  {
    AppendGood(init, r, SortStep(kind, [p, q], r.arr[p := r.arr[q]][q := r.arr[p]], d));
  }

  lemma PlaceGood(init: seq<int>, r: Run, k: int, v: int, kind: StepType, d: Message)
    requires Good(init, r) && InBounds(k, r.arr)
    requires kind == MergePlace || kind == Insert
    ensures Good(init, Place(r, k, v, kind, d))
  {
    AppendGood(init, r, SortStep(kind, [k], r.arr[k := v], d));
  }

  lemma ShiftGood(init: seq<int>, r: Run, j: int, d: Message)
    requires Good(init, r) && 0 <= j && j + 1 < |r.arr|
    ensures Good(init, ShiftRight(r, j, d))
  {
    AppendGood(init, r, SortStep(Shift, [j, j + 1], r.arr[j + 1 := r.arr[j]], d));
  }

  /** Each primitive adds one step of its own kind to the counts. */
  lemma NoteCount(r: Run, kind: StepType, h: seq<int>, d: Message, t: StepType)
    ensures Count(Note(r, kind, h, d).steps, t) == Count(r.steps, t) + (if kind == t then 1 else 0)
  {
    CountSnoc(r.steps, SortStep(kind, h, r.arr, d), t);
  }

  lemma ExchangeCount(r: Run, p: int, q: int, kind: StepType, d: Message, t: StepType)
    requires InBounds(p, r.arr) && InBounds(q, r.arr)
    ensures Count(Exchange(r, p, q, kind, d).steps, t) == Count(r.steps, t) + (if kind == t then 1 else 0)
  {
    CountSnoc(r.steps, SortStep(kind, [p, q], r.arr[p := r.arr[q]][q := r.arr[p]], d), t);
  }

  lemma PlaceCount(r: Run, k: int, v: int, kind: StepType, d: Message, t: StepType)
    requires InBounds(k, r.arr)
    ensures Count(Place(r, k, v, kind, d).steps, t) == Count(r.steps, t) + (if kind == t then 1 else 0)
  {
    CountSnoc(r.steps, SortStep(kind, [k], r.arr[k := v], d), t);
  }

  lemma ShiftCount(r: Run, j: int, d: Message, t: StepType)
    requires 0 <= j && j + 1 < |r.arr|
    ensures Count(ShiftRight(r, j, d).steps, t) == Count(r.steps, t) + (if Shift == t then 1 else 0)
  {
    CountSnoc(r.steps, SortStep(Shift, [j, j + 1], r.arr[j + 1 := r.arr[j]], d), t);
  }

  predicate StrictlyDecreasing(s: seq<int>) {
    forall p, q :: 0 <= p < q < |s| ==> s[p] > s[q]
  }

  /** Each element exceeds the next, stated one pair at a time. */
  predicate Descending(s: seq<int>)
    decreases |s|
  {
    |s| <= 1 || (s[0] > s[1] && Descending(s[1..]))
  }

  lemma {:induction false} StrictlyToDescending(s: seq<int>)
    requires StrictlyDecreasing(s)
    ensures Descending(s)
    decreases |s|
  {
    if |s| > 1 {
      assert StrictlyDecreasing(s[1..]) by {
        forall p, q | 0 <= p < q < |s| - 1
          ensures s[1..][p] > s[1..][q]
        {
          assert s[1..][p] == s[p + 1] && s[1..][q] == s[q + 1];
        }
      }
      StrictlyToDescending(s[1..]);
    }
  }

  /** In a descending sequence an earlier element exceeds a later one. */
  lemma {:induction false} DescendingAt(s: seq<int>, p: nat, q: nat)
    requires Descending(s) && p < q < |s|
    ensures s[p] > s[q]
    decreases |s|
  {
    if p == 0 {
      if q > 1 {
        DescendingAt(s[1..], 0, q - 1);
      }
    } else {
      DescendingAt(s[1..], p - 1, q - 1);
    }
  }

  /** The number of pairs among n elements: one pass over n elements compares
      n-1 pairs, the rest are among the other n-1. */
  function Triangle(n: nat): nat {
    if n == 0 then 0 else Triangle(n - 1) + (n - 1)
  }

  lemma TriangleUnfold(n: nat)
    ensures n > 0 ==> Triangle(n) == Triangle(n - 1) + (n - 1)
    ensures n <= 1 ==> Triangle(n) == 0
  {
  }

  /** The pairs among n elements number n(n-1)/2. */
  lemma {:induction false} TriangleClosed(n: nat)
    ensures 2 * Triangle(n) == n * (n - 1)
  {
    if n > 0 {
      TriangleClosed(n - 1);
    }
  }

  /** Each element is at most its successor throughout lo..hi-1. */
  predicate AdjacentSorted(s: seq<int>, lo: int, hi: int)
    requires 0 <= lo && hi <= |s|
  {
    forall k :: lo <= k < hi - 1 ==> s[k] <= s[k + 1]
  }

  predicate SortedRange(s: seq<int>, lo: int, hi: int)
    requires 0 <= lo && hi <= |s|
  {
    forall p, q :: lo <= p < q < hi ==> s[p] <= s[q]
  }

  /** Order between neighbours gives order between any two positions. */
  lemma {:induction false} AdjacentToSorted(s: seq<int>, lo: int, hi: int)
    requires 0 <= lo && hi <= |s| && AdjacentSorted(s, lo, hi)
    ensures SortedRange(s, lo, hi)
  {
    if hi - lo > 1 {
      AdjacentToSorted(s, lo, hi - 1);
      forall p | lo <= p < hi - 1
        ensures s[p] <= s[hi - 1]
      {
        assert s[p] <= s[hi - 2];
      }
    }
  }

  /** The indices lo..hi inclusive, in order. */
  function Span(lo: int, hi: int): (h: seq<int>)
    requires lo <= hi + 1
    ensures IsSpan(h, lo, hi)
  {
    seq(hi - lo + 1, k => lo + k)
  }

  /** createRange: a fresh array holding start..end inclusive, in order. */
  method CreateRange(start: int, end: int) returns (range: array<int>)
    requires start <= end + 1
    ensures range[..] == Span(start, end)
  {
    range := new int[end - start + 1];
    var i := start;
    while i <= end
      invariant start <= i <= end + 1
      invariant forall k :: 0 <= k < i - start ==> range[k] == start + k
    {
      range[i - start] := i;
      i := i + 1;
    }
  }

  /** left..right is a range of an array of n elements, empty when right
      is left - 1.  Like the other range predicates here, the body binds the
      condition to a name before returning it, so that the verifier keeps it
      as one fact instead of splitting it into its comparisons; this keeps
      the cost of the proofs that mention it down. */
  predicate Fits(n: int, left: int, right: int) {
    var ok := 0 <= left <= right + 1 <= n;
    ok
  }

  /** left..right is a range of two or more elements of an array of n. */
  predicate Wide(n: int, left: int, right: int) {
    var ok := 0 <= left < right < n;
    ok
  }

  /** `after` is `before` with left..right sorted: the same elements there,
      in order, and nothing outside the range touched. */
  predicate SortsRange(before: seq<int>, after: seq<int>, left: int, right: int)
    requires Fits(|before|, left, right)
  {
    |after| == |before| &&
    after[..left] == before[..left] &&
    after[right + 1..] == before[right + 1..] &&
    SortedSeq(after[left..right + 1]) &&
    multiset(after[left..right + 1]) == multiset(before[left..right + 1])
  }

  /** Closing a faithful run that has no COMPLETED step with one gives a
      trace that ends in its one COMPLETED step. */
  lemma EndsReplay(init: seq<int>, x: Run, d: Message)
    requires Good(init, x) && AllInRange(x.steps) && Lacks(x.steps, Completed)
    ensures var y := Note(x, Completed, [], d);
            Good(init, y) && AllInRange(y.steps) && EndsCompleted(y.steps, y.arr)
  {
    NoteGood(init, x, Completed, [], d);
    LacksCount(x.steps, Completed);
    NoteCount(x, Completed, [], d, Completed);
  }

  /** A run that sorts the whole array leaves a sorted permutation. */
  lemma EndsSorted(init: seq<int>, s: seq<int>)
    requires SortsRange(init, s, 0, |init| - 1)
    ensures SortedSeq(s) && multiset(s) == multiset(init)
  {
    assert s[0..|init|] == s && init[0..|init|] == init;
  }
}
