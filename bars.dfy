/** BarVisualizer's colour state: one fill per bar, in order, and the set of
    indices marked permanently sorted.  A bar is modelled by its fill alone;
    its height, width, value label and JavaFX node are presentation. */
module Bars {
  import opened Wrappers

  /** The fills the view paints: Color.LIGHTBLUE and the ColorScheme
      constants SORTED, COMPARING, SWAPPING, SHIFTING, MERGING and PIVOT. */
  datatype Color =
    | LightBlue | SortedGreen | ComparingOrange | SwappingRed
    | ShiftingPink | MergingBlue | PivotCrimson

  /** What the view shows: the fills of the bars and the sorted indices. */
  datatype View = View(bars: seq<Color>, sorted: set<int>)

  /** The "permanently sorted" rule: only real positions are marked, and
      every marked position that has a bar is painted SORTED. */
  predicate Kept(v: View) {
    (forall k :: k in v.sorted ==> 0 <= k) &&
    (forall k :: 0 <= k < |v.bars| && k in v.sorted ==> v.bars[k] == SortedGreen)
  }

  /** The resting fill of bar k: SORTED if it is marked, LIGHTBLUE if not. */
  function Rest(k: int, sorted: set<int>): Color {
    if k in sorted then SortedGreen else LightBlue
  }

  function AtRest(n: nat, sorted: set<int>): seq<Color> {
    seq(n, k => Rest(k, sorted))
  }

  /** The view after the bars are (re)built for an array of n elements:
      updateVisualization, and resetColors when n is the bar count. */
  function Refreshed(v: View, n: nat): View {
    View(AtRest(n, v.sorted), v.sorted)
  }

  /** markSorted(i): in range, mark i and paint it SORTED; otherwise no change. */
  function Marked(v: View, i: int): View {
    if 0 <= i < |v.bars| then View(v.bars[i := SortedGreen], v.sorted + {i}) else v
  }

  /** markSorted on each index in turn. */
  function MarkedAll(v: View, idx: seq<int>): View
    decreases |idx|
  {
    if idx == [] then v else MarkedAll(Marked(v, idx[0]), idx[1..])
  }

  /** highlightBars: every bar back to its resting fill, then the listed
      bars that are in range and not sorted painted `c`. */
  function Highlighted(v: View, idx: seq<int>, c: Color): View {
    View(seq(|v.bars|, k => if k !in v.sorted && k in idx then c else Rest(k, v.sorted)), v.sorted)
  }

  /** resetAll: nothing sorted, every bar LIGHTBLUE. */
  function Cleared(v: View): View {
    View(AtRest(|v.bars|, {}), {})
  }

  /** updateBarsFromArray reaches Arrays.stream(values).max().getAsInt() with
      an empty array, which throws NoSuchElementException: the array is
      empty and, its length matching the bar count, there are no bars. */
  predicate MaxThrows(bars: seq<Color>, values: seq<int>) {
    |values| == 0 && |bars| == 0
  }

  /** The positions 0..n-1, in order. */
  function Indices(n: nat): seq<int> {
    seq(n, i => i)
  }

  /** The completion sweep: every bar marked, from the first to the last. */
  function Swept(v: View): View {
    MarkedAll(v, Indices(|v.bars|))
  }

  /** The in-range positions among `idx`. */
  function Within(idx: seq<int>, n: int): set<int> {
    set k | k in idx && 0 <= k < n
  }

  // ------------------------------------------------------------ properties

  /** A rebuilt view keeps the rule, whatever the length. */
  lemma RefreshedKept(v: View, n: nat)
    requires Kept(v)
    ensures Kept(Refreshed(v, n)) && |Refreshed(v, n).bars| == n
    ensures forall k :: 0 <= k < n ==> (Refreshed(v, n).bars[k] == SortedGreen <==> k in v.sorted)
  {
  }

  /** Marking keeps the rule and paints nothing but the marked bar. */
  lemma MarkedKept(v: View, i: int)
    requires Kept(v)
    ensures var w := Marked(v, i);
            Kept(w) && |w.bars| == |v.bars| &&
            (w.sorted == if 0 <= i < |v.bars| then v.sorted + {i} else v.sorted)
  {
  }

  /** Marking a list of indices marks exactly its in-range members, paints
      them SORTED, and leaves every other bar as it was. */
  lemma {:induction false} MarkedAllIs(v: View, idx: seq<int>)
    ensures var w := MarkedAll(v, idx);
            |w.bars| == |v.bars| && w.sorted == v.sorted + Within(idx, |v.bars|) &&
            forall k :: 0 <= k < |v.bars| ==> w.bars[k] == if k in idx then SortedGreen else v.bars[k]
    decreases |idx|
  {
    if idx != [] {
      var u := Marked(v, idx[0]);
      MarkedAllIs(u, idx[1..]);
      assert Within(idx, |v.bars|) == Within([idx[0]], |v.bars|) + Within(idx[1..], |v.bars|) by {
        assert forall k :: k in idx <==> k == idx[0] || k in idx[1..];
      }
    }
  }

  /** Marking index after index: the last one comes last. */
  lemma {:induction false} MarkedAllSnoc(v: View, idx: seq<int>, i: int)
    ensures MarkedAll(v, idx + [i]) == Marked(MarkedAll(v, idx), i)
    decreases |idx|
  {
    if idx == [] {
      assert MarkedAll(Marked(v, i), []) == Marked(v, i);
    } else {
      assert (idx + [i])[0] == idx[0] && (idx + [i])[1..] == idx[1..] + [i];
      MarkedAllSnoc(Marked(v, idx[0]), idx[1..], i);
    }
  }

  lemma MarkedAllKept(v: View, idx: seq<int>)
    requires Kept(v)
    ensures Kept(MarkedAll(v, idx))
  {
    MarkedAllIs(v, idx);
  }

  /** Highlighting never repaints a sorted bar, paints the listed unsorted
      bars `c`, and keeps the rule. */
  lemma HighlightedSpares(v: View, idx: seq<int>, c: Color)
    requires Kept(v)
    ensures var w := Highlighted(v, idx, c);
            Kept(w) && w.sorted == v.sorted && |w.bars| == |v.bars| &&
            forall k :: 0 <= k < |v.bars| ==>
              (k in v.sorted ==> w.bars[k] == SortedGreen) &&
              (k !in v.sorted && k in idx ==> w.bars[k] == c) &&
              (k !in v.sorted && k !in idx ==> w.bars[k] == LightBlue)
  {
  }

  /** After the sweep every bar is marked and painted SORTED. */
  lemma SweptAll(v: View)
    ensures var w := Swept(v);
            |w.bars| == |v.bars| && v.sorted <= w.sorted &&
            (forall k :: 0 <= k < |v.bars| ==> k in w.sorted && w.bars[k] == SortedGreen) &&
            (forall k :: k in w.sorted <==> k in v.sorted || 0 <= k < |v.bars|)
  {
    var idx := Indices(|v.bars|);
    MarkedAllIs(v, idx);
    assert forall k :: 0 <= k < |v.bars| ==> k in idx by {
      forall k | 0 <= k < |v.bars| ensures k in idx { assert idx[k] == k; }
    }
  }

  // ------------------------------------------------------------ the object

  class BarVisualizer {
    var bars: seq<Color>
    var sortedIndices: set<int>

    function Shown(): View
      reads this
    {
      View(bars, sortedIndices)
    }

    predicate Valid()
      reads this
    {
      Kept(Shown())
    }

    /** A view with no bars and nothing sorted. */
    constructor ()
      ensures Valid() && bars == [] && sortedIndices == {}
    {
      bars := [];
      sortedIndices := {};
    }

    /** updateVisualization: one bar per element at its resting fill (none
        for a null or empty array); the sorted set is kept. */
    method UpdateVisualization(values: Option<seq<int>>)
      requires Valid()
      modifies this
      ensures Valid()
      ensures Shown() == Refreshed(old(Shown()), if values.Some? then |values.value| else 0)
    {
      bars := [];
      RefreshedKept(old(Shown()), 0);
      if values.None? || |values.value| == 0 {
        assert AtRest(0, sortedIndices) == [];
        return;
      }
      var n := |values.value|;
      for i := 0 to n
        invariant bars == AtRest(i, sortedIndices) && sortedIndices == old(sortedIndices)
      {
        var fill := if i in sortedIndices then SortedGreen else LightBlue;
        bars := bars + [fill];
      }
      RefreshedKept(old(Shown()), n);
    }

    /** highlightBars: a null list changes nothing; otherwise every bar goes
        back to its resting fill and the listed, in-range, unsorted bars are
        painted `color`. */
    method HighlightBars(indices: Option<seq<int>>, color: Color)
      requires Valid()
      modifies this
      ensures Valid()
      ensures Shown() == if indices.None? then old(Shown()) else Highlighted(old(Shown()), indices.value, color)
    {
      if indices.None? {
        return;
      }
      ResetColors();
      var idx := indices.value;
      for i := 0 to |idx|
        invariant Shown() == Highlighted(old(Shown()), idx[..i], color)
      {
        var index := idx[i];
        ghost var before := bars;
        if 0 <= index < |bars| && index !in sortedIndices {
          bars := bars[index := color];
        }
        assert forall k :: k in idx[..i + 1] <==> k in idx[..i] || k == index by {
          assert idx[..i + 1] == idx[..i] + [index];
        }
      }
      assert idx[..|idx|] == idx;
      HighlightedSpares(old(Shown()), idx, color);
    }

    /** resetColors: every bar at its resting fill. */
    method ResetColors()
      requires Valid()
      modifies this
      ensures Valid() && Shown() == Refreshed(old(Shown()), |old(bars)|)
    {
      var n := |bars|;
      for i := 0 to n
        invariant |bars| == n && sortedIndices == old(sortedIndices)
        invariant forall k :: 0 <= k < i ==> bars[k] == Rest(k, sortedIndices)
      {
        bars := bars[i := if i in sortedIndices then SortedGreen else LightBlue];
      }
    }

    /** markSorted(index): an in-range index is marked and painted SORTED;
        any other index changes nothing. */
    method MarkSorted(index: int)
      requires Valid()
      modifies this
      ensures Valid() && Shown() == Marked(old(Shown()), index)
    {
      if 0 <= index < |bars| {
        bars := bars[index := SortedGreen];
        sortedIndices := sortedIndices + {index};
      }
    }

    /** markSorted over a list: a null list changes nothing. */
    method MarkSortedAll(indices: Option<seq<int>>)
      requires Valid()
      modifies this
      ensures Valid()
      ensures Shown() == if indices.None? then old(Shown()) else MarkedAll(old(Shown()), indices.value)
    {
      if indices.None? {
        return;
      }
      var idx := indices.value;
      for i := 0 to |idx|
        invariant Valid() && Shown() == MarkedAll(old(Shown()), idx[..i])
      {
        MarkedAllSnoc(old(Shown()), idx[..i], idx[i]);
        assert idx[..i + 1] == idx[..i] + [idx[i]];
        MarkSorted(idx[i]);
      }
      assert idx[..|idx|] == idx;
    }

    /** resetAll: nothing sorted any more, every bar LIGHTBLUE. */
    method ResetAll()
      modifies this
      ensures Valid() && Shown() == Cleared(old(Shown()))
    {
      sortedIndices := {};
      var n := |bars|;
      for i := 0 to n
        invariant |bars| == n && sortedIndices == {}
        invariant forall k :: 0 <= k < i ==> bars[k] == LightBlue
      {
        bars := bars[i := LightBlue];
      }
    }

    /** updateBarsFromArray: with as many elements as bars, the sorted bars
        keep their fill and the others go back to LIGHTBLUE; otherwise the
        bars are rebuilt.  Either way the view is the rebuilt one.  An empty
        array over no bars throws (`thrown`) before anything changes. */
    method UpdateBarsFromArray(values: Option<seq<int>>) returns (thrown: bool)
      requires Valid()
      modifies this
      ensures Valid()
      ensures thrown <==> values.Some? && MaxThrows(old(bars), values.value)
      ensures thrown ==> bars == old(bars) && sortedIndices == old(sortedIndices)
      ensures Shown() == Refreshed(old(Shown()), if values.Some? then |values.value| else 0)
    {
      if values.None? || |values.value| != |bars| {
        UpdateVisualization(values);
        return false;
      }
      if |values.value| == 0 {
        return true;
      }
      var n := |bars|;
      for i := 0 to n
        invariant |bars| == n && sortedIndices == old(sortedIndices) && Valid()
        invariant forall k :: 0 <= k < i ==> bars[k] == Rest(k, sortedIndices)
      {
        if i !in sortedIndices {
          bars := bars[i := LightBlue];
        }
      }
      thrown := false;
    }

    /** isSorted. */
    method IsSorted(index: int) returns (b: bool)
      ensures b <==> index in sortedIndices
    {
      b := index in sortedIndices;
    }

    /** getBarCount. */
    method GetBarCount() returns (n: nat)
      ensures n == |bars|
    {
      n := |bars|;
    }
  }
}
