/** Grid geometry checks: the horizontal coordinate axes of the model output
    must be strictly increasing, cells are located on them with numpy's
    searchsorted (left side), and the columns of layer bottoms are checked
    before any layer is resolved. Layer columns are indexed bottom-up:
    entry 0 is the bottom of the lowest layer. */
module Grid {
  import opened Wrappers
  import opened RunConfig

  /** Each coordinate is below the next one (xgrids[:-1] < xgrids[1:]). */
  predicate StrictlyIncreasing(xs: seq<real>) {
    forall i :: 0 <= i < |xs| - 1 ==> xs[i] < xs[i + 1]
  }

  /** Any two coordinates are in index order. */
  predicate Sorted(xs: seq<real>) {
    forall i, j :: 0 <= i < j < |xs| ==> xs[i] < xs[j]
  }

  lemma {:induction false} ChainBelow(xs: seq<real>, i: nat, j: nat)
    requires StrictlyIncreasing(xs)
    requires i < j < |xs|
    ensures xs[i] < xs[j]
    decreases j - i
  {
    if i + 1 < j {
      ChainBelow(xs, i, j - 1);
    }
  }

  /** The neighbour-wise check the program makes is enough for the
      all-pairs order that binary search relies on, and conversely. */
  lemma IncreasingIsSorted(xs: seq<real>)
    ensures StrictlyIncreasing(xs) <==> Sorted(xs)
  {
    if StrictlyIncreasing(xs) {
      forall i, j | 0 <= i < j < |xs|
        ensures xs[i] < xs[j]
      {
        ChainBelow(xs, i, j);
      }
    }
  }

  /** v belongs at position i of xs: everything before is smaller, everything
      from i on is at least v (numpy searchsorted, side 'left'). */
  predicate IsInsertionPoint(xs: seq<real>, v: real, i: nat) {
    i <= |xs|
    && (forall j :: 0 <= j < i ==> xs[j] < v)
    && (forall j :: i <= j < |xs| ==> v <= xs[j])
  }

  /** Binary search for the left insertion point of v. On a coordinate of
      the grid itself it returns that coordinate's index. */
  method SearchSorted(xs: seq<real>, v: real) returns (i: nat)
    requires Sorted(xs)
    ensures IsInsertionPoint(xs, v, i)
    ensures forall k :: 0 <= k < |xs| && xs[k] == v ==> i == k
  {
    var lo, hi := 0, |xs|;
    while lo < hi
      invariant 0 <= lo <= hi <= |xs|
      invariant forall j :: 0 <= j < lo ==> xs[j] < v
      invariant forall j :: hi <= j < |xs| ==> v <= xs[j]
    {
      var mid := (lo + hi) / 2;
      if xs[mid] < v {
        lo := mid + 1;
      } else {
        hi := mid;
      }
    }
    i := lo;
    assert forall k :: 0 <= k < |xs| && xs[k] == v ==> !(i < k && xs[i] < xs[k]);
  }

  /** Cell indices of the wells: abort unless both axes are strictly
      increasing, otherwise search every well's cell coordinate on its axis. */
  method CellIndices(xgrids: seq<real>, ygrids: seq<real>, xs: seq<real>, ys: seq<real>)
    returns (r: Result<(seq<nat>, seq<nat>), Fatal>)
    ensures r.Failure? <==> !(StrictlyIncreasing(xgrids) && StrictlyIncreasing(ygrids))
    ensures r.Failure? ==> r.error == GridNotSorted
    ensures r.Success? ==> |r.value.0| == |xs| && |r.value.1| == |ys|
    ensures r.Success? ==> forall k :: 0 <= k < |xs| ==> IsInsertionPoint(xgrids, xs[k], r.value.0[k])
    ensures r.Success? ==> forall k :: 0 <= k < |ys| ==> IsInsertionPoint(ygrids, ys[k], r.value.1[k])
  {
    if !(StrictlyIncreasing(xgrids) && StrictlyIncreasing(ygrids)) {
      return Failure(GridNotSorted);
    }
    IncreasingIsSorted(xgrids);
    IncreasingIsSorted(ygrids);
    var ix := SearchAll(xgrids, xs);
    var iy := SearchAll(ygrids, ys);
    r := Success((ix, iy));
  }

  /** searchsorted applied to a whole vector of query values. */
  method SearchAll(grid: seq<real>, vs: seq<real>) returns (idx: seq<nat>)
    requires Sorted(grid)
    ensures |idx| == |vs|
    ensures forall k :: 0 <= k < |vs| ==> IsInsertionPoint(grid, vs[k], idx[k])
    ensures forall k :: 0 <= k < |vs| && vs[k] in grid ==> idx[k] < |grid| && grid[idx[k]] == vs[k]
  {
    idx := [];
    while |idx| < |vs|
      invariant |idx| <= |vs|
      invariant forall k :: 0 <= k < |idx| ==> IsInsertionPoint(grid, vs[k], idx[k])
      invariant forall k :: 0 <= k < |idx| && vs[k] in grid ==> idx[k] < |grid| && grid[idx[k]] == vs[k]
    {
      var i := SearchSorted(grid, vs[|idx|]);
      idx := idx + [i];
    }
  }

  // ---- Layer-bottom check -------------------------------------------------

  /** Every step up a column goes down in elevation: np.all(np.diff(c) < 0)
      for one well. Vacuously true for a one-layer column. */
  predicate AllStepsDown(c: seq<real>) {
    forall i :: 0 <= i < |c| - 1 ==> c[i + 1] - c[i] < 0.0
  }

  /** The number of wells whose column steps down everywhere (the .sum()). */
  function CountAllStepsDown(cols: seq<seq<real>>): (n: nat)
    ensures n <= |cols|
    ensures n > 0 <==> exists w :: 0 <= w < |cols| && AllStepsDown(cols[w])
  {
    if |cols| == 0 then 0
    else CountAllStepsDown(cols[..|cols| - 1]) + (if AllStepsDown(cols[|cols| - 1]) then 1 else 0)
  }

  /** The layer-bottom check as the program writes it: abort when at least
      one well's column steps down at every layer. */
  function BottomsCheckAsWritten(cols: seq<seq<real>>): (r: Result<(), Fatal>)
    ensures r.Failure? <==> exists w :: 0 <= w < |cols| && AllStepsDown(cols[w])
    ensures r.Failure? ==> r.error == LayerBottomsNotDecreasing
  {
    if CountAllStepsDown(cols) > 0 then Failure(LayerBottomsNotDecreasing) else Success(())
  }

  /** The layer-bottom check as the program's comment and error message
      describe it: abort unless every column of bottoms decreases strictly
      from the top layer down, i.e. increases strictly with the bottom-up
      index. */
  function BottomsCheck(cols: seq<seq<real>>): (r: Result<(), Fatal>)
    ensures r.Success? <==> forall w :: 0 <= w < |cols| ==> Sorted(cols[w])
    ensures r.Failure? ==> r.error == LayerBottomsNotDecreasing
  {
    if forall w :: 0 <= w < |cols| ==> StrictlyIncreasing(cols[w]) then
      assert forall w :: 0 <= w < |cols| ==> Sorted(cols[w]) by {
        forall w | 0 <= w < |cols| ensures Sorted(cols[w]) {
          IncreasingIsSorted(cols[w]);
        }
      }
      Success(())
    else
      assert exists w :: 0 <= w < |cols| && !Sorted(cols[w]) by {
        var w :| 0 <= w < |cols| && !StrictlyIncreasing(cols[w]);
        IncreasingIsSorted(cols[w]);
      }
      Failure(LayerBottomsNotDecreasing)
  }

  /** A one-layer model: the check as written aborts on a valid column. */
  lemma OneLayerColumnAborts()
    ensures BottomsCheckAsWritten([[5.0]]).Failure?
    ensures BottomsCheck([[5.0]]).Success?
  {
    assert AllStepsDown([5.0]);
  }

  /** A column whose top bottom lies below the middle one passes the check
      as written. */
  lemma FoldedColumnPasses()
    ensures BottomsCheckAsWritten([[-10.0, 8.0, 0.0]]).Success?
    ensures BottomsCheck([[-10.0, 8.0, 0.0]]).Failure?
  {
    var c := [-10.0, 8.0, 0.0];
    assert c[1] - c[0] >= 0.0;
    assert !AllStepsDown(c);
    assert !(c[1] < c[2]);
  }

  /** Where both checks accept, a column that passes the intended check also
      passes the one as written, unless it has a single layer: the written
      check only ever misses columns, and the one-layer column is the only
      valid column it rejects. */
  lemma {:induction false} IntendedPassesWritten(cols: seq<seq<real>>)
    requires BottomsCheck(cols).Success?
    requires forall w :: 0 <= w < |cols| ==> |cols[w]| >= 2
    ensures BottomsCheckAsWritten(cols).Success?
  {
    forall w | 0 <= w < |cols|
      ensures !AllStepsDown(cols[w])
    {
      assert cols[w][0] < cols[w][1];
    }
  }
}
