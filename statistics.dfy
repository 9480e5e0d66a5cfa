/** Error statistics per observation, per well and per layer, and the flip
    of layer numbers from MIKE SHE's internal bottom-up order (0 = lowest)
    to the reported top-down order (1 = top). A missing value (pandas NaN)
    is None; group means skip missing values and are None when nothing is
    left, as pandas' mean does. */
module Statistics {
  import opened Wrappers

  // ---- Per observation ----------------------------------------------------

  /** err = obs_value - sim_intp, missing when the observation is. */
  function ErrorOf(obs: Option<real>, sim: real): (e: Option<real>)
    ensures e.Some? <==> obs.Some?
    ensures e.Some? ==> sim + e.value == obs.value
  {
    match obs
    case None => None
    case Some(v) => Some(v - sim)
  }

  /** err2 = err ** 2 */
  function SquareOf(e: Option<real>): (s: Option<real>)
    ensures s.Some? <==> e.Some?
    ensures s.Some? ==> s.value >= 0.0
  {
    match e
    case None => None
    case Some(v) => Some(v * v)
  }

  /** The err column. */
  function Errors(obs: seq<Option<real>>, sim: seq<real>): (err: seq<Option<real>>)
    requires |obs| == |sim|
    ensures |err| == |obs|
    ensures forall i :: 0 <= i < |obs| ==> err[i] == ErrorOf(obs[i], sim[i])
  {
    if |obs| == 0 then [] else [ErrorOf(obs[0], sim[0])] + Errors(obs[1..], sim[1..])
  }

  /** The err2 column. */
  function Squares(err: seq<Option<real>>): (sq: seq<Option<real>>)
    ensures |sq| == |err|
    ensures forall i :: 0 <= i < |err| ==> sq[i] == SquareOf(err[i])
  {
    if |err| == 0 then [] else [SquareOf(err[0])] + Squares(err[1..])
  }

  /** A column without missing values. */
  function AllPresent(vs: seq<real>): (r: seq<Option<real>>)
    ensures |r| == |vs|
    ensures forall i :: 0 <= i < |vs| ==> r[i] == Some(vs[i])
  {
    if |vs| == 0 then [] else [Some(vs[0])] + AllPresent(vs[1..])
  }

  predicate NoneMissing(vs: seq<Option<real>>) {
    forall i :: 0 <= i < |vs| ==> vs[i].Some?
  }

  // ---- Group-by over a key column ------------------------------------------

  /** The number of rows with key k (shape[0] of the selection). */
  function Size(keys: seq<int>, k: int): (n: nat)
    ensures n <= |keys|
  {
    if |keys| == 0 then 0 else (if keys[0] == k then 1 else 0) + Size(keys[1..], k)
  }

  /** The number of non-missing values among the rows with key k. */
  function Present(vs: seq<Option<real>>, keys: seq<int>, k: int): (n: nat)
    requires |vs| == |keys|
  {
    if |vs| == 0 then 0
    else (if keys[0] == k && vs[0].Some? then 1 else 0) + Present(vs[1..], keys[1..], k)
  }

  /** The sum of the non-missing values among the rows with key k. */
  function Total(vs: seq<Option<real>>, keys: seq<int>, k: int): real
    requires |vs| == |keys|
  {
    if |vs| == 0 then 0.0
    else (if keys[0] == k && vs[0].Some? then vs[0].value else 0.0) + Total(vs[1..], keys[1..], k)
  }

  /** groupby(key).mean() for key k: missing values skipped, None when no
      value is left. */
  function GroupMean(vs: seq<Option<real>>, keys: seq<int>, k: int): (m: Option<real>)
    requires |vs| == |keys|
  {
    var n := Present(vs, keys, k);
    if n == 0 then None else Some(Total(vs, keys, k) / n as real)
  }

  /** The mean exists exactly when some row with key k has a value, and
      then lies between the smallest and largest such value. */
  lemma {:induction false} MeanWithinValues(vs: seq<Option<real>>, keys: seq<int>, k: int, lo: real, hi: real)
    requires |vs| == |keys|
    requires forall i :: 0 <= i < |vs| && keys[i] == k && vs[i].Some? ==> lo <= vs[i].value <= hi
    ensures GroupMean(vs, keys, k).Some? <==> exists i :: 0 <= i < |vs| && keys[i] == k && vs[i].Some?
    ensures GroupMean(vs, keys, k).Some? ==> lo <= GroupMean(vs, keys, k).value <= hi
  {
    TotalBounds(vs, keys, k, lo, hi);
    PresentPositive(vs, keys, k);
    var n := Present(vs, keys, k);
    if n > 0 {
      var t := Total(vs, keys, k);
      assert lo * n as real <= t <= hi * n as real;
      DivBounds(t, n as real, lo, hi);
    }
  }

  lemma DivBounds(t: real, n: real, lo: real, hi: real)
    requires n > 0.0 && lo * n <= t <= hi * n
    ensures lo <= t / n <= hi
  {
  }

  lemma {:induction false} PresentPositive(vs: seq<Option<real>>, keys: seq<int>, k: int)
    requires |vs| == |keys|
    ensures Present(vs, keys, k) > 0 <==> exists i :: 0 <= i < |vs| && keys[i] == k && vs[i].Some?
  {
    if |vs| > 0 {
      PresentPositive(vs[1..], keys[1..], k);
      if Present(vs[1..], keys[1..], k) > 0 {
        var i :| 0 <= i < |vs| - 1 && keys[1..][i] == k && vs[1..][i].Some?;
        assert keys[i + 1] == k && vs[i + 1].Some?;
      }
    }
  }

  lemma {:induction false} TotalBounds(vs: seq<Option<real>>, keys: seq<int>, k: int, lo: real, hi: real)
    requires |vs| == |keys|
    requires forall i :: 0 <= i < |vs| && keys[i] == k && vs[i].Some? ==> lo <= vs[i].value <= hi
    ensures lo * Present(vs, keys, k) as real <= Total(vs, keys, k) <= hi * Present(vs, keys, k) as real
  {
    if |vs| > 0 {
      TotalBounds(vs[1..], keys[1..], k, lo, hi);
    }
  }

  // ---- Per well -------------------------------------------------------------

  /** Row i holds a value of group k. */
  predicate PresentIn(vs: seq<Option<real>>, keys: seq<int>, k: int, i: int) {
    0 <= i < |vs| && i < |keys| && keys[i] == k && vs[i].Some?
  }

  /** A group with a value has a smallest and a largest value. */
  lemma {:induction false} GroupExtremes(vs: seq<Option<real>>, keys: seq<int>, k: int)
    requires exists i :: PresentIn(vs, keys, k, i)
    ensures exists i :: PresentIn(vs, keys, k, i) && forall j :: PresentIn(vs, keys, k, j) ==> vs[i].value <= vs[j].value
    ensures exists i :: PresentIn(vs, keys, k, i) && forall j :: PresentIn(vs, keys, k, j) ==> vs[j].value <= vs[i].value
    decreases |vs|
  {
    var n := |vs| - 1;
    if PresentIn(vs, keys, k, n) && forall j :: PresentIn(vs, keys, k, j) ==> j == n {
    } else {
      var m :| PresentIn(vs, keys, k, m) && m != n;
      var vs', keys' := vs[..n], if |keys| < n then keys else keys[..n];
      assert PresentIn(vs', keys', k, m);
      GroupExtremes(vs', keys', k);
      assert forall j :: PresentIn(vs', keys', k, j) <==> PresentIn(vs, keys, k, j) && j != n;
      var lo :| PresentIn(vs', keys', k, lo) && forall j :: PresentIn(vs', keys', k, j) ==> vs'[lo].value <= vs'[j].value;
      var hi :| PresentIn(vs', keys', k, hi) && forall j :: PresentIn(vs', keys', k, j) ==> vs'[j].value <= vs'[hi].value;
      if PresentIn(vs, keys, k, n) {
        var lo' := if vs[n].value < vs[lo].value then n else lo;
        var hi' := if vs[hi].value < vs[n].value then n else hi;
        assert PresentIn(vs, keys, k, lo') && forall j :: PresentIn(vs, keys, k, j) ==> vs[lo'].value <= vs[j].value;
        assert PresentIn(vs, keys, k, hi') && forall j :: PresentIn(vs, keys, k, j) ==> vs[j].value <= vs[hi'].value;
      } else {
        assert PresentIn(vs, keys, k, lo) && forall j :: PresentIn(vs, keys, k, j) ==> vs[lo].value <= vs[j].value;
        assert PresentIn(vs, keys, k, hi) && forall j :: PresentIn(vs, keys, k, j) ==> vs[j].value <= vs[hi].value;
      }
    }
  }

  /** A group mean exists exactly when the group has a value, and then lies
      between two of the group's values. */
  lemma MeanBetweenValues(vs: seq<Option<real>>, keys: seq<int>, k: int)
    requires |vs| == |keys|
    ensures GroupMean(vs, keys, k).Some? <==> exists i :: PresentIn(vs, keys, k, i)
    ensures GroupMean(vs, keys, k).Some? ==>
              exists i, j :: PresentIn(vs, keys, k, i) && PresentIn(vs, keys, k, j)
                             && vs[i].value <= GroupMean(vs, keys, k).value <= vs[j].value
  {
    PresentPositive(vs, keys, k);
    if exists i :: 0 <= i < |vs| && keys[i] == k && vs[i].Some? {
      var w :| 0 <= w < |vs| && keys[w] == k && vs[w].Some?;
      assert PresentIn(vs, keys, k, w);
      GroupExtremes(vs, keys, k);
      var lo :| PresentIn(vs, keys, k, lo) && forall j :: PresentIn(vs, keys, k, j) ==> vs[lo].value <= vs[j].value;
      var hi :| PresentIn(vs, keys, k, hi) && forall j :: PresentIn(vs, keys, k, j) ==> vs[j].value <= vs[hi].value;
      MeanWithinValues(vs, keys, k, vs[lo].value, vs[hi].value);
    }
  }

  /** A per-well column: the group mean of an observation column over each
      well's own observations (wells 0 .. nWells-1). A well's mean exists
      exactly when one of its observations has a value, and then lies
      between two of its values. */
  function WellMeans(vs: seq<Option<real>>, obsWell: seq<int>, nWells: nat): (col: seq<Option<real>>)
    requires |vs| == |obsWell|
    ensures |col| == nWells
    ensures forall w :: 0 <= w < nWells ==> (col[w].Some? <==> exists i :: PresentIn(vs, obsWell, w, i))
    ensures forall w :: 0 <= w < nWells && col[w].Some? ==>
              exists i, j :: PresentIn(vs, obsWell, w, i) && PresentIn(vs, obsWell, w, j)
                             && vs[i].value <= col[w].value <= vs[j].value
  {
    var col := seq(nWells, w requires 0 <= w < nWells => GroupMean(vs, obsWell, w));
    assert forall w :: 0 <= w < nWells ==> col[w] == GroupMean(vs, obsWell, w);
    forall w | 0 <= w < nWells
      ensures col[w].Some? <==> exists i :: PresentIn(vs, obsWell, w, i)
      ensures col[w].Some? ==>
                exists i, j :: PresentIn(vs, obsWell, w, i) && PresentIn(vs, obsWell, w, j)
                               && vs[i].value <= col[w].value <= vs[j].value
    {
      MeanBetweenValues(vs, obsWell, w);
    }
    col
  }

  /** The per-well statistics of the output table. */
  datatype WellStats = WellStats(obsMean: Option<real>, simMean: Option<real>, me: Option<real>, mse: Option<real>)

  function StatsOfWell(obs: seq<Option<real>>, sim: seq<real>, obsWell: seq<int>, w: int): WellStats
    requires |obs| == |sim| == |obsWell|
  {
    var err := Errors(obs, sim);
    WellStats(GroupMean(obs, obsWell, w), GroupMean(AllPresent(sim), obsWell, w),
              GroupMean(err, obsWell, w), GroupMean(Squares(err), obsWell, w))
  }

  /** With no missing observation, a well's mean error is its observed mean
      minus its simulated mean, and all four statistics exist exactly when
      the well has an observation. */
  lemma MeanErrorIsDifference(obs: seq<Option<real>>, sim: seq<real>, obsWell: seq<int>, w: int)
    requires |obs| == |sim| == |obsWell|
    requires NoneMissing(obs)
    ensures var s := StatsOfWell(obs, sim, obsWell, w);
            && (s.obsMean.Some? <==> Size(obsWell, w) > 0)
            && s.simMean.Some? == s.obsMean.Some? == s.me.Some? == s.mse.Some?
            && (s.me.Some? ==> s.me.value == s.obsMean.value - s.simMean.value)
  {
    var err := Errors(obs, sim);
    var simCol := AllPresent(sim);
    ErrorSums(obs, sim, obsWell, w);
    PresentCounts(obs, obsWell, w);
    PresentCounts(simCol, obsWell, w);
    PresentCounts(err, obsWell, w);
    SquarePresent(err, obsWell, w);
    var n := Present(obs, obsWell, w);
    if n > 0 {
      DifferenceOfMeans(Total(obs, obsWell, w), Total(simCol, obsWell, w), n as real);
    }
  }

  lemma DifferenceOfMeans(a: real, b: real, n: real)
    requires n > 0.0
    ensures (a - b) / n == a / n - b / n
  {
  }

  /** Summing the errors of a group: total observed minus total simulated;
      errors are present exactly where observations are. */
  lemma {:induction false} ErrorSums(obs: seq<Option<real>>, sim: seq<real>, keys: seq<int>, k: int)
    requires |obs| == |sim| == |keys|
    requires NoneMissing(obs)
    ensures Total(Errors(obs, sim), keys, k) == Total(obs, keys, k) - Total(AllPresent(sim), keys, k)
  {
    if |obs| > 0 {
      assert Errors(obs, sim)[1..] == Errors(obs[1..], sim[1..]);
      assert AllPresent(sim)[1..] == AllPresent(sim[1..]);
      ErrorSums(obs[1..], sim[1..], keys[1..], k);
    }
  }

  /** In a column without missing values, the present count is the size. */
  lemma {:induction false} PresentCounts(vs: seq<Option<real>>, keys: seq<int>, k: int)
    requires |vs| == |keys| && NoneMissing(vs)
    ensures Present(vs, keys, k) == Size(keys, k)
  {
    if |vs| > 0 {
      PresentCounts(vs[1..], keys[1..], k);
    }
  }

  /** A well's mean squared error exists exactly when its mean error does,
      and is never negative. */
  lemma MseNonNegative(err: seq<Option<real>>, keys: seq<int>, k: int)
    requires |err| == |keys|
    ensures GroupMean(Squares(err), keys, k).Some? == GroupMean(err, keys, k).Some?
    ensures GroupMean(Squares(err), keys, k).Some? ==> GroupMean(Squares(err), keys, k).value >= 0.0
  {
    SquarePresent(err, keys, k);
    TotalNonNegative(Squares(err), keys, k);
    var n := Present(Squares(err), keys, k);
    if n > 0 {
      DivNonNegative(Total(Squares(err), keys, k), n as real);
    }
  }

  lemma DivNonNegative(t: real, n: real)
    requires t >= 0.0 && n > 0.0
    ensures t / n >= 0.0
  {
  }

  /** A group total of values that are never negative is never negative. */
  lemma {:induction false} TotalNonNegative(vs: seq<Option<real>>, keys: seq<int>, k: int)
    requires |vs| == |keys|
    requires forall i :: 0 <= i < |vs| && vs[i].Some? ==> vs[i].value >= 0.0
    ensures Total(vs, keys, k) >= 0.0
  {
    if |vs| > 0 {
      TotalNonNegative(vs[1..], keys[1..], k);
    }
  }

  /** Squares are present exactly where errors are. */
  lemma {:induction false} SquarePresent(err: seq<Option<real>>, keys: seq<int>, k: int)
    requires |err| == |keys|
    ensures Present(Squares(err), keys, k) == Present(err, keys, k)
  {
    if |err| > 0 {
      assert Squares(err)[1..] == Squares(err[1..]);
      SquarePresent(err[1..], keys[1..], k);
    }
  }

  // ---- Layer flip -----------------------------------------------------------

  /** Internal layer l (0 = lowest) as reported: itop + 1 - l (1 = top). */
  function Flip(itop: nat, l: int): int {
    itop + 1 - l
  }

  function FlipAll(itop: nat, ls: seq<int>): (r: seq<int>)
    ensures |r| == |ls|
    ensures forall i :: 0 <= i < |ls| ==> r[i] == Flip(itop, ls[i])
  {
    if |ls| == 0 then [] else [Flip(itop, ls[0])] + FlipAll(itop, ls[1..])
  }

  /** The flip maps 0..itop onto 1..itop+1, reverses the order and is undone
      by flipping again. */
  lemma FlipIsReversal(itop: nat, l: int, m: int)
    ensures 0 <= l <= itop <==> 1 <= Flip(itop, l) <= itop + 1
    ensures l < m <==> Flip(itop, l) > Flip(itop, m)
    ensures Flip(itop, Flip(itop, l)) == l
  {
  }

  /** Every reported layer L in 1..itop+1 comes from exactly one internal
      layer. */
  lemma FlipOnto(itop: nat, L: int)
    requires 1 <= L <= itop + 1
    ensures var l := itop + 1 - L; 0 <= l <= itop && Flip(itop, l) == L
    ensures forall l :: Flip(itop, l) == L ==> l == itop + 1 - L
  {
  }

  /** Counting reported layer L is counting internal layer itop + 1 - L. */
  lemma {:induction false} FlippedSize(itop: nat, ls: seq<int>, L: int)
    ensures Size(FlipAll(itop, ls), L) == Size(ls, itop + 1 - L)
  {
    if |ls| > 0 {
      assert FlipAll(itop, ls)[1..] == FlipAll(itop, ls[1..]);
      FlippedSize(itop, ls[1..], L);
    }
  }

  // ---- Layer table ----------------------------------------------------------

  /** One row of the layer table; the two RMSE columns are held as the mean
      squares whose square roots they are. */
  datatype LayerRow = LayerRow(layer: int, msWells: Option<real>, msObs: Option<real>,
                               meWells: Option<real>, meObs: Option<real>, nWells: nat, nObs: nat)

  /** The row for reported layer L: statistics of the wells and of the
      observations whose (flipped) layer is L. */
  function RowFor(L: int, wellLayer: seq<int>, wellMe: seq<Option<real>>, wellMse: seq<Option<real>>,
                  obsLayer: seq<int>, err: seq<Option<real>>, err2: seq<Option<real>>): LayerRow
    requires |wellLayer| == |wellMe| == |wellMse|
    requires |obsLayer| == |err| == |err2|
  {
    LayerRow(L, GroupMean(wellMse, wellLayer, L), GroupMean(err2, obsLayer, L),
             GroupMean(wellMe, wellLayer, L), GroupMean(err, obsLayer, L),
             Size(wellLayer, L), Size(obsLayer, L))
  }

  /** Sum of Size(keys, k) for k in lo .. lo + count - 1. */
  function SizeTotal(keys: seq<int>, lo: int, count: nat): nat
    decreases count
  {
    if count == 0 then 0 else Size(keys, lo + count - 1) + SizeTotal(keys, lo, count - 1)
  }

  /** The sizes of the groups lo .. lo + count - 1 add up to the number of
      rows when every key lies in that range. */
  lemma {:induction false} SizesPartition(keys: seq<int>, lo: int, count: nat)
    requires forall i :: 0 <= i < |keys| ==> lo <= keys[i] < lo + count
    ensures SizeTotal(keys, lo, count) == |keys|
  {
    if |keys| > 0 {
      SizesPartition(keys[1..], lo, count);
      SizeTotalSplit(keys, lo, count);
    } else {
      SizeTotalEmpty(keys, lo, count);
    }
  }

  lemma {:induction false} SizeTotalEmpty(keys: seq<int>, lo: int, count: nat)
    requires |keys| == 0
    ensures SizeTotal(keys, lo, count) == 0
  {
    if count > 0 {
      SizeTotalEmpty(keys, lo, count - 1);
    }
  }

  /** Peeling the first row off: it adds one to exactly one group. */
  lemma {:induction false} SizeTotalSplit(keys: seq<int>, lo: int, count: nat)
    requires |keys| > 0
    ensures SizeTotal(keys, lo, count)
            == SizeTotal(keys[1..], lo, count) + (if lo <= keys[0] < lo + count then 1 else 0)
  {
    if count > 0 {
      SizeTotalSplit(keys, lo, count - 1);
    }
  }

  /** The nObs column of a table, summed. */
  function SumNObs(rows: seq<LayerRow>): nat {
    if |rows| == 0 then 0 else SumNObs(rows[..|rows| - 1]) + rows[|rows| - 1].nObs
  }

  /** The nWells column of a table, summed. */
  function SumNWells(rows: seq<LayerRow>): nat {
    if |rows| == 0 then 0 else SumNWells(rows[..|rows| - 1]) + rows[|rows| - 1].nWells
  }

  lemma SumsAppend(rows: seq<LayerRow>, row: LayerRow)
    ensures SumNObs(rows + [row]) == SumNObs(rows) + row.nObs
    ensures SumNWells(rows + [row]) == SumNWells(rows) + row.nWells
  {
    assert (rows + [row])[..|rows|] == rows;
  }

  /** Fill the layer table, one row per reported layer 1 .. itop + 1. Row
      L - 1 holds layer L's statistics; when every well and observation has
      a reported layer in range, the counts add up to the numbers of wells
      and observations. */
  method LayerTable(itop: nat, wellLayer: seq<int>, wellMe: seq<Option<real>>, wellMse: seq<Option<real>>,
                    obsLayer: seq<int>, err: seq<Option<real>>, err2: seq<Option<real>>)
    returns (rows: seq<LayerRow>)
    requires |wellLayer| == |wellMe| == |wellMse|
    requires |obsLayer| == |err| == |err2|
    ensures |rows| == itop + 1
    ensures forall i :: 0 <= i < |rows| ==> rows[i] == RowFor(i + 1, wellLayer, wellMe, wellMse, obsLayer, err, err2)
    ensures (forall i :: 0 <= i < |obsLayer| ==> 1 <= obsLayer[i] <= itop + 1) ==> SumNObs(rows) == |obsLayer|
    ensures (forall i :: 0 <= i < |wellLayer| ==> 1 <= wellLayer[i] <= itop + 1) ==> SumNWells(rows) == |wellLayer|
  {
    rows := [];
    var il := 1;
    while il <= itop + 1
      invariant 1 <= il <= itop + 2
      invariant |rows| == il - 1
      invariant forall i :: 0 <= i < |rows| ==> rows[i] == RowFor(i + 1, wellLayer, wellMe, wellMse, obsLayer, err, err2)
      invariant SumNObs(rows) == SizeTotal(obsLayer, 1, il - 1)
      invariant SumNWells(rows) == SizeTotal(wellLayer, 1, il - 1)
    {
      var row := RowFor(il, wellLayer, wellMe, wellMse, obsLayer, err, err2);
      SumsAppend(rows, row);
      rows := rows + [row];
      il := il + 1;
    }
    if forall i :: 0 <= i < |obsLayer| ==> 1 <= obsLayer[i] <= itop + 1 {
      SizesPartition(obsLayer, 1, itop + 1);
    }
    if forall i :: 0 <= i < |wellLayer| ==> 1 <= wellLayer[i] <= itop + 1 {
      SizesPartition(wellLayer, 1, itop + 1);
    }
  }

  /** Internal layers 0 .. itop, once flipped, are counted in full by the
      layer table: summing the per-layer counts gives every observation. */
  lemma FlippedCountsCover(itop: nat, internal: seq<int>)
    requires forall i :: 0 <= i < |internal| ==> 0 <= internal[i] <= itop
    ensures SizeTotal(FlipAll(itop, internal), 1, itop + 1) == |internal|
  {
    SizesPartition(FlipAll(itop, internal), 1, itop + 1);
  }
}
