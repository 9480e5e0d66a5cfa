/** The layer resolver: the loop over the well table that turns each well's
    filter depth into a computational layer (bottom-up, 0 = lowest), with
    the two clamped edge cases that tag the comment and log a warning. */
module LayerResolver {
  import opened Wrappers
  import RunConfig
  import Comments
  import Grid

  /** Filter depth as absolute elevation. */
  function FilterElevation(topo: real, depth: real): real {
    topo - depth
  }

  /** The highest index j < hi with cll[j] <= f, or -1 when there is none
      (np.max(np.where(cll <= f)[0]) restricted to the first hi entries). */
  function HighestAtOrBelow(cll: seq<real>, f: real, hi: nat): (r: int)
    requires hi <= |cll|
    ensures -1 <= r < hi
    ensures r >= 0 ==> cll[r] <= f
    ensures forall j :: r < j < hi ==> f < cll[j]
    decreases hi
  {
    if hi == 0 then -1
    else if cll[hi - 1] <= f then hi - 1
    else HighestAtOrBelow(cll, f, hi - 1)
  }

  datatype Flag = AboveTopography | BelowLowestLayer

  /** The layer assigned to a well and the edge case it fell into, if any. */
  datatype Placement = Placement(layer: nat, flag: Option<Flag>)

  /** Placement of a well with surface elevation topo and filter depth depth
      in the column of layer bottoms cll. */
  function Place(topo: real, depth: real, cll: seq<real>): (p: Placement)
    requires |cll| >= 1
    ensures p.layer < |cll|
  {
    var f := FilterElevation(topo, depth);
    if f > topo then Placement(|cll| - 1, Some(AboveTopography))
    else if f < cll[0] then Placement(0, Some(BelowLowestLayer))
    else
      var iz := HighestAtOrBelow(cll, f, |cll|);
      Placement(iz, None)
  }

  /** The three cases of a placement: a filter above the surface goes to
      the top layer, one below the lowest bottom to the lowest layer (both
      flagged), and one in range to the highest layer whose bottom is at or
      below it, every layer above having its bottom above the filter. */
  lemma PlacementCases(topo: real, depth: real, cll: seq<real>)
    requires |cll| >= 1
    ensures var p, f := Place(topo, depth, cll), FilterElevation(topo, depth);
            && (p.flag == Some(AboveTopography) <==> f > topo)
            && (p.flag == Some(AboveTopography) ==> p.layer == |cll| - 1)
            && (p.flag == Some(BelowLowestLayer) <==> f <= topo && f < cll[0])
            && (p.flag == Some(BelowLowestLayer) ==> p.layer == 0)
            && (p.flag == None <==> cll[0] <= f <= topo)
            && (p.flag == None ==> cll[p.layer] <= f)
            && (p.flag == None ==> forall j :: p.layer < j < |cll| ==> f < cll[j])
  {
  }

  /** With a column that passes the intended layer-bottom check, the layer
      of an in-range filter is the one layer whose bottom is at or below the
      filter and whose upper neighbour's bottom is above it. */
  lemma PlacementIsContainingLayer(topo: real, depth: real, cll: seq<real>, j: nat)
    requires |cll| >= 1 && Grid.Sorted(cll)
    requires Place(topo, depth, cll).flag == None
    requires j < |cll| && cll[j] <= FilterElevation(topo, depth)
    requires j == |cll| - 1 || FilterElevation(topo, depth) < cll[j + 1]
    ensures Place(topo, depth, cll).layer == j
  {
    PlacementCases(topo, depth, cll);
  }

  function TagText(flag: Flag): string {
    match flag
    case AboveTopography => "AboveTopography"
    case BelowLowestLayer => "BelowLowestLayer"
  }

  /** The well comment after placement: the edge case's tag is added. */
  function Annotated(c: Option<string>, flag: Option<Flag>): Option<string> {
    match flag
    case None => c
    case Some(t) => Comments.AddTag(c, TagText(t))
  }

  /** The warnings one well's placement logs: one per edge case, none in range. */
  function PlacementWarnings(w: nat, x: real, y: real, topo: real, depth: real, cll: seq<real>): (ws: seq<RunConfig.Warning>)
    requires |cll| >= 1
    ensures |ws| == (if Place(topo, depth, cll).flag.Some? then 1 else 0)
  {
    var f := FilterElevation(topo, depth);
    match Place(topo, depth, cll).flag
    case None => []
    case Some(AboveTopography) => [RunConfig.Warning.AboveTopography(w, x, y, f - topo, topo)]
    case Some(BelowLowestLayer) => [RunConfig.Warning.BelowLowestLayer(w, x, y, cll[0] - f, cll[0])]
  }

  /** The warnings of the first n wells, in table order. */
  function WarningsUpTo(xs: seq<real>, ys: seq<real>, topo: seq<real>, depth: seq<real>, cols: seq<seq<real>>, n: nat): (ws: seq<RunConfig.Warning>)
    requires n <= |xs| == |ys| == |topo| == |depth| == |cols|
    requires forall w :: 0 <= w < |cols| ==> |cols[w]| >= 1
  {
    if n == 0 then []
    else WarningsUpTo(xs, ys, topo, depth, cols, n - 1)
         + PlacementWarnings(n - 1, xs[n - 1], ys[n - 1], topo[n - 1], depth[n - 1], cols[n - 1])
  }

  /** Appending one well's warnings to a log that holds those of the wells
      before it. */
  lemma LogGrows(log0: seq<RunConfig.Warning>, before: seq<RunConfig.Warning>, one: seq<RunConfig.Warning>,
                 after: seq<RunConfig.Warning>)
    requires after == before + one
    ensures (log0 + before) + one == log0 + after
  {
  }

  /** The number of wells flagged among the first n. */
  function FlaggedUpTo(topo: seq<real>, depth: seq<real>, cols: seq<seq<real>>, n: nat): nat
    requires n <= |topo| == |depth| == |cols|
    requires forall w :: 0 <= w < |cols| ==> |cols[w]| >= 1
  {
    if n == 0 then 0
    else FlaggedUpTo(topo, depth, cols, n - 1) + (if Place(topo[n - 1], depth[n - 1], cols[n - 1]).flag.Some? then 1 else 0)
  }

  /** Exactly one warning per clamped well, none for the others. */
  lemma {:induction false} OneWarningPerFlaggedWell(xs: seq<real>, ys: seq<real>, topo: seq<real>, depth: seq<real>, cols: seq<seq<real>>, n: nat)
    requires n <= |xs| == |ys| == |topo| == |depth| == |cols|
    requires forall w :: 0 <= w < |cols| ==> |cols[w]| >= 1
    ensures |WarningsUpTo(xs, ys, topo, depth, cols, n)| == FlaggedUpTo(topo, depth, cols, n)
  {
    if n > 0 {
      OneWarningPerFlaggedWell(xs, ys, topo, depth, cols, n - 1);
    }
  }

  /** The well table (out_well) as far as the layer resolver reads and
      writes it, one entry per well in table order. */
  class WellTable {
    var x: seq<real>
    var y: seq<real>
    var topo: seq<real>
    var depth: seq<real>
    var comment: seq<Option<string>>
    var layer: seq<int>
    var zBottoms: seq<seq<real>>

    ghost predicate Valid()
      reads this
    {
      |x| == |y| == |topo| == |depth| == |comment| == |layer| == |zBottoms|
    }

    constructor (x: seq<real>, y: seq<real>, topo: seq<real>, depth: seq<real>, comment: seq<Option<string>>)
      requires |x| == |y| == |topo| == |depth| == |comment|
      ensures Valid()
      ensures this.x == x && this.y == y && this.topo == topo && this.depth == depth && this.comment == comment
      ensures layer == seq(|x|, _ => -99) && zBottoms == seq(|x|, _ => [])
    {
      this.x, this.y, this.topo, this.depth, this.comment := x, y, topo, depth, comment;
      layer := seq(|x|, _ => -99);
      zBottoms := seq(|x|, _ => []);
    }

    /** Place every well in its column cols[w] of layer bottoms (ll[:, w]),
        record the column, tag the comment and log one warning per clamped
        well. */
    method ResolveLayers(cols: seq<seq<real>>, nLayers: nat, log: RunConfig.WarningLog)
      requires Valid()
      requires nLayers >= 1 && |cols| == |topo|
      requires forall w :: 0 <= w < |cols| ==> |cols[w]| == nLayers
      modifies this`comment, this`layer, this`zBottoms, log
      ensures Valid()
      ensures zBottoms == cols
      ensures forall w :: 0 <= w < |layer| ==> layer[w] == Place(topo[w], depth[w], cols[w]).layer
      ensures forall w :: 0 <= w < |comment| ==>
                comment[w] == Annotated(old(comment[w]), Place(topo[w], depth[w], cols[w]).flag)
      ensures log.entries == old(log.entries) + WarningsUpTo(x, y, topo, depth, cols, |cols|)
    {
      ghost var comment0, entries0 := comment, log.entries;
      var itop := nLayers - 1;
      var iw := 0;
      while iw < |cols|
        invariant 0 <= iw <= |cols|
        invariant ResolvedUpTo(iw, cols, comment0, entries0, log)
      {
        ResolveNext(iw, cols, itop, comment0, entries0, log);
        iw := iw + 1;
      }
    }

    /** The wells before n are placed, their comments tagged and their
        warnings logged after entries0; the others are untouched. */
    ghost predicate ResolvedUpTo(n: nat, cols: seq<seq<real>>, comment0: seq<Option<string>>,
                                 entries0: seq<RunConfig.Warning>, log: RunConfig.WarningLog)
      reads this, log
    {
      && Valid() && n <= |cols| == |topo| && |comment0| == |comment|
      && (forall w :: 0 <= w < |cols| ==> |cols[w]| >= 1)
      && (forall w :: 0 <= w < n ==> layer[w] == Place(topo[w], depth[w], cols[w]).layer)
      && (forall w :: 0 <= w < n ==> zBottoms[w] == cols[w])
      && (forall w :: 0 <= w < n ==> comment[w] == Annotated(comment0[w], Place(topo[w], depth[w], cols[w]).flag))
      && (forall w :: n <= w < |comment| ==> comment[w] == comment0[w])
      && log.entries == entries0 + WarningsUpTo(x, y, topo, depth, cols, n)
    }

    /** The loop body: place well iw, keeping ResolvedUpTo. */
    method ResolveNext(iw: nat, cols: seq<seq<real>>, itop: nat, ghost comment0: seq<Option<string>>,
                       ghost entries0: seq<RunConfig.Warning>, log: RunConfig.WarningLog)
      requires iw < |cols| && |cols[iw]| == itop + 1
      requires ResolvedUpTo(iw, cols, comment0, entries0, log)
      modifies this`comment, this`layer, this`zBottoms, log
      ensures ResolvedUpTo(iw + 1, cols, comment0, entries0, log)
    {
      ResolveWell(iw, cols[iw], itop, log);
      LogGrows(entries0, WarningsUpTo(x, y, topo, depth, cols, iw),
               PlacementWarnings(iw, x[iw], y[iw], topo[iw], depth[iw], cols[iw]),
               WarningsUpTo(x, y, topo, depth, cols, iw + 1));
    }

    /** One pass of the well loop: the placement of well iw. */
    method ResolveWell(iw: nat, cll: seq<real>, itop: nat, log: RunConfig.WarningLog)
      requires Valid() && iw < |topo| && |cll| == itop + 1
      modifies this`comment, this`layer, this`zBottoms, log
      ensures Valid()
      ensures layer == old(layer)[iw := Place(topo[iw], depth[iw], cll).layer]
      ensures zBottoms == old(zBottoms)[iw := cll]
      ensures comment == old(comment)[iw := Annotated(old(comment[iw]), Place(topo[iw], depth[iw], cll).flag)]
      ensures log.entries == old(log.entries) + PlacementWarnings(iw, x[iw], y[iw], topo[iw], depth[iw], cll)
    {
      var ctop := topo[iw];
      var fElev := ctop - depth[iw];
      var iz: int;
      if fElev > ctop {
        iz := itop;
        comment := comment[iw := Comments.AddTag(comment[iw], "AboveTopography")];
        log.Append(RunConfig.Warning.AboveTopography(iw, x[iw], y[iw], fElev - ctop, ctop));
      } else if fElev < cll[0] {
        iz := 0;
        comment := comment[iw := Comments.AddTag(comment[iw], "BelowLowestLayer")];
        log.Append(RunConfig.Warning.BelowLowestLayer(iw, x[iw], y[iw], cll[0] - fElev, cll[0]));
      } else {
        iz := HighestAtOrBelow(cll, fElev, |cll|);
      }
      layer := layer[iw := iz];
      zBottoms := zBottoms[iw := cll];
    }
  }

  /** A filter 5 below a surface at 10, bottoms -10, 0, 8: layer 1. */
  lemma InRangeExample()
    ensures Place(10.0, 5.0, [-10.0, 0.0, 8.0]) == Placement(1, None)
  {
    assert HighestAtOrBelow([-10.0, 0.0, 8.0], 5.0, 3) == 1;
  }

  /** A negative depth puts the filter above the surface: top layer, tagged. */
  lemma AboveTopographyExample()
    ensures Place(10.0, -2.0, [-10.0, 0.0, 8.0]) == Placement(2, Some(AboveTopography))
    ensures Annotated(None, Place(10.0, -2.0, [-10.0, 0.0, 8.0]).flag) == Some("AboveTopography")
  {
  }
}
