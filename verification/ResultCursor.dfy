/** Stepping through search results: nextPrevResult of lib/msgstore.go, WrapBounds of lib/iterator/index.go. */
module ResultCursor {
  import opened ThreadTree
  import opened ThreadNodes
  import opened MessageCursor

  function WrapBounds(i: int, lower: int, upper: int): int {
    if upper <= 0 then lower
    else if i > upper then lower + (i - upper - 1) % upper
    else if i < lower then upper - (lower - i - 1) % upper
    else i
  }

  /** MoveIndex with WrapBounds, on an iterator that starts at `start` and ends at `end`. */
  function MoveAround(idx: int, delta: int, start: int, end: int): int {
    if end < start then WrapBounds(idx - delta, end, start) else WrapBounds(idx + delta, start, end)
  }

  /** Wherever the index was, even past the end of a list that has become shorter, it ends up in the list. */
  lemma WrapStaysInside(i: int, upper: nat)
    ensures 0 <= WrapBounds(i, 0, upper) <= upper
  {
  }

  /** The place after (or before) place `p` of a display of `n` rows, around its ends. */
  function Neighbour(p: int, delta: int, n: nat): int {
    if p + delta >= n then 0 else if p + delta < 0 then n - 1 else p + delta
  }

  /** In both list orders, a step by one goes to the neighbouring row of the display. */
  lemma StepIsNeighbour(reverse: bool, n: nat, i: int, delta: int)
    requires 0 <= i < n && (delta == 1 || delta == -1)
    ensures PlaceOf(reverse, n, MoveAround(i, delta, StartIndex(reverse, n), EndIndex(reverse, n)))
         == Neighbour(PlaceOf(reverse, n, i), delta, n)
  {
    if n > 1 {
      assert 0 % (n - 1) == 0;
    }
  }

  class ResultList {
    const reverse: bool
    var results: seq<UID>
    var resultIndex: int
    var selectedUid: UID

    constructor (reverse: bool, selected: UID)
      ensures this.reverse == reverse && results == [] && resultIndex == 0 && selectedUid == selected
    {
      this.reverse := reverse;
      results, resultIndex, selectedUid := [], 0, selected;
    }

    /** The result of index `resultIndex` is at row `p` of the display of the results, and selected. */
    ghost predicate At(p: int)
      reads this
    {
      && 0 <= p < |results| && PlaceOf(reverse, |results|, resultIndex) == p
      && selectedUid == Displayed(reverse, results)[p]
    }

    /** nextPrevResult: it never leaves the results, whatever happened to them since the last step; from
        a row of the results it goes to the neighbouring one. */
    method NextPrevResult(delta: int)
      modifies this
      ensures results == old(results)
      ensures results == [] ==> resultIndex == old(resultIndex) && selectedUid == old(selectedUid)
      ensures results != [] ==> At(PlaceOf(reverse, |results|, resultIndex))
      ensures results != [] && old(resultIndex) < 0 ==> At(0)
      ensures 0 <= old(resultIndex) < |results| && (delta == 1 || delta == -1) ==>
        At(Neighbour(PlaceOf(reverse, |results|, old(resultIndex)), delta, |results|))
    {
      if |results| == 0 {
        return;
      }
      WrapStaysInside(if reverse then resultIndex + delta else resultIndex - delta, |results| - 1);
      if 0 <= resultIndex < |results| && (delta == 1 || delta == -1) {
        StepIsNeighbour(reverse, |results|, resultIndex, delta);
      }
      if resultIndex < 0 {
        resultIndex := StartIndex(reverse, |results|);
      } else {
        resultIndex := MoveAround(resultIndex, delta, StartIndex(reverse, |results|), EndIndex(reverse, |results|));
      }
      selectedUid := results[resultIndex];
    }

    /** ApplySearch: the first result of the display is selected. */
    method ApplySearch(found: seq<UID>)
      modifies this
      ensures results == found && (found != [] ==> At(0))
      ensures found == [] ==> selectedUid == old(selectedUid)
    {
      results := found;
      resultIndex := -1;
      NextPrevResult(1);
    }

    /** updateResults: after the cursor has moved to a result by itself, stepping goes on from there. */
    method UpdateResults()
      modifies this
      ensures results == old(results) && selectedUid == old(selectedUid)
      ensures resultIndex == old(resultIndex) || (0 <= resultIndex < |results| && results[resultIndex] == selectedUid)
      ensures old(resultIndex) >= 0 && selectedUid in results ==> At(PlaceOf(reverse, |results|, resultIndex))
    {
      if |results| == 0 || resultIndex < 0 {
        return;
      }
      for i := 0 to |results|
        invariant resultIndex == old(resultIndex) && selectedUid !in results[..i]
        invariant results == old(results) && selectedUid == old(selectedUid)
      {
        if selectedUid == results[i] {
          resultIndex := i;
          return;
        }
      }
    }
  }
}
