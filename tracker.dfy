/** CodeTracker: the pseudo-code listing of the chosen algorithm, one label
    per line, and the line that is highlighted.  Label styling is reduced to
    whether a label is lit; fonts, colours, scrolling and hover effects are
    presentation. */
module Tracker {

  /** The listings, by algorithm name (algorithmCodes). */
  const Listings: map<string, seq<string>> := map[
    "Bubble Sort" := [
      "function bubbleSort(array):",
      "  n = array.length",
      "  for i = 0 to n-2:",
      "    swapped = false",
      "    for j = 0 to n-i-2:",
      "      if array[j] > array[j+1]:",
      "        swap(array[j], array[j+1])",
      "        swapped = true",
      "    if not swapped:",
      "      break",
      "  return array"],
    "Selection Sort" := [
      "function selectionSort(array):",
      "  n = array.length",
      "  for i = 0 to n-2:",
      "    minIndex = i",
      "    for j = i+1 to n-1:",
      "      if array[j] < array[minIndex]:",
      "        minIndex = j",
      "    swap(array[i], array[minIndex])",
      "  return array"],
    "Insertion Sort" := [
      "function insertionSort(array):",
      "  for i = 1 to n-1:",
      "    key = array[i]",
      "    j = i - 1",
      "    while j >= 0 and array[j] > key:",
      "      array[j+1] = array[j]",
      "      j = j - 1",
      "    array[j+1] = key",
      "  return array"],
    "Merge Sort" := [
      "function mergeSort(array, left, right):",
      "  if left < right:",
      "    mid = (left + right) / 2",
      "    mergeSort(array, left, mid)",
      "    mergeSort(array, mid+1, right)",
      "    merge(array, left, mid, right)",
      "",
      "function merge(array, left, mid, right):",
      "  create leftArray and rightArray",
      "  i = 0, j = 0, k = left",
      "  while i < leftSize and j < rightSize:",
      "    if leftArray[i] <= rightArray[j]:",
      "      array[k] = leftArray[i]",
      "      i++",
      "    else:",
      "      array[k] = rightArray[j]",
      "      j++",
      "    k++",
      "  copy remaining elements"],
    "Quick Sort" := [
      "function quickSort(array, low, high):",
      "  if low < high:",
      "    pivotIndex = partition(array, low, high)",
      "    quickSort(array, low, pivotIndex-1)",
      "    quickSort(array, pivotIndex+1, high)",
      "",
      "function partition(array, low, high):",
      "  pivot = array[high]",
      "  i = low - 1",
      "  for j = low to high-1:",
      "    if array[j] < pivot:",
      "      i++",
      "      swap(array[i], array[j])",
      "  swap(array[i+1], array[high])",
      "  return i+1"]
  ]

  /** The listing shown for `algorithm`: none for a name without one. */
  function ListingOf(algorithm: string): (lines: seq<string>)
    ensures |lines| == (if algorithm == "Bubble Sort" then 11
                        else if algorithm == "Selection Sort" then 9
                        else if algorithm == "Insertion Sort" then 9
                        else if algorithm == "Merge Sort" then 19
                        else if algorithm == "Quick Sort" then 15
                        else 0)
  {
    if algorithm in Listings then Listings[algorithm] else []
  }

  /** One label of the panel: its line number as shown (one more than its
      position), its text, and whether it is highlighted. */
  datatype CodeLine = CodeLine(number: int, text: string, lit: bool)

  /** The labels of a freshly loaded listing: numbered from 1, none lit. */
  function Labels(lines: seq<string>): seq<CodeLine> {
    seq(|lines|, i requires 0 <= i < |lines| => CodeLine(i + 1, lines[i], false))
  }

  /** Label k with its highlight set to `lit`, when there is such a label. */
  function Restyled(labels: seq<CodeLine>, k: int, lit: bool): (r: seq<CodeLine>)
    ensures |r| == |labels|
  {
    if 0 <= k < |labels| then labels[k := labels[k].(lit := lit)] else labels
  }

  class CodeTracker {
    var codeLabels: seq<CodeLine>
    var currentAlgorithm: string
    var currentLineIndex: int

    /** The highlighted line is none (-1) or a line of the listing, and no
        label but that one is lit. */
    predicate Valid()
      reads this
    {
      -1 <= currentLineIndex < |codeLabels| &&
      forall k :: 0 <= k < |codeLabels| && codeLabels[k].lit ==> k == currentLineIndex
    }

    /** A tracker shows the Bubble Sort listing with no line highlighted. */
    constructor ()
      ensures Valid() && currentAlgorithm == "Bubble Sort" && currentLineIndex == -1
      ensures codeLabels == Labels(Listings["Bubble Sort"]) && |codeLabels| == 11
    {
      codeLabels := [];
      currentAlgorithm := "";
      currentLineIndex := -1;
      new;
      LoadAlgorithmCode("Bubble Sort");
    }

    /** loadAlgorithmCode: the listing of `algorithm` (none for an unknown
        name), one unlit label per line, and no line highlighted. */
    method LoadAlgorithmCode(algorithm: string)
      modifies this
      ensures Valid() && currentAlgorithm == algorithm && currentLineIndex == -1
      ensures codeLabels == Labels(ListingOf(algorithm))
    {
      currentAlgorithm := algorithm;
      currentLineIndex := -1;
      codeLabels := [];
      var lines := ListingOf(algorithm);
      for i := 0 to |lines|
        invariant codeLabels == Labels(lines[..i])
        invariant currentAlgorithm == algorithm && currentLineIndex == -1
      {
        codeLabels := codeLabels + [CodeLine(i + 1, lines[i], false)];
      }
      assert lines[..|lines|] == lines;
    }

    /** highlightLine: the lit label, if any, goes dark; a line of the
        listing becomes the highlighted one, while any other index leaves
        currentLineIndex as it was. */
    method HighlightLine(lineIndex: int)
      requires Valid()
      modifies this`codeLabels, this`currentLineIndex
      ensures Valid()
      ensures currentLineIndex == if 0 <= lineIndex < |codeLabels| then lineIndex else old(currentLineIndex)
      ensures codeLabels == Restyled(Restyled(old(codeLabels), old(currentLineIndex), false), lineIndex, true)
    {
      codeLabels := Restyled(codeLabels, currentLineIndex, false);
      if 0 <= lineIndex < |codeLabels| {
        codeLabels := Restyled(codeLabels, lineIndex, true);
        currentLineIndex := lineIndex;
      }
    }

    /** clearHighlight: no label lit and no line highlighted. */
    method ClearHighlight()
      requires Valid()
      modifies this`codeLabels, this`currentLineIndex
      ensures Valid() && currentLineIndex == -1
      ensures codeLabels == Restyled(old(codeLabels), old(currentLineIndex), false)
      ensures forall k :: 0 <= k < |codeLabels| ==> !codeLabels[k].lit
    {
      codeLabels := Restyled(codeLabels, currentLineIndex, false);
      currentLineIndex := -1;
    }

    method GetCurrentAlgorithm() returns (algorithm: string)
      ensures algorithm == currentAlgorithm
    {
      algorithm := currentAlgorithm;
    }

    method GetCurrentLineIndex() returns (k: int)
      requires Valid()
      ensures k == currentLineIndex && -1 <= k < |codeLabels|
    {
      k := currentLineIndex;
    }
  }

  /** Highlighting an out-of-range index keeps currentLineIndex but darkens
      the label it names: afterwards no label is lit. */
  lemma StaleHighlight(labels: seq<CodeLine>, current: int, lineIndex: int)
    requires -1 <= current < |labels|
    requires forall k :: 0 <= k < |labels| && labels[k].lit ==> k == current
    requires !(0 <= lineIndex < |labels|)
    ensures forall k :: 0 <= k < |labels| ==> !Restyled(Restyled(labels, current, false), lineIndex, true)[k].lit
  {
  }
}
