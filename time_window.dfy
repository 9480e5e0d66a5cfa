/** The simulation period read from the result file: the time steps that
    cover the observation period, found with pandas' get_indexer in 'pad'
    and 'backfill' mode, a warning when the observations reach more than 14
    days beyond the simulation, and one repeated time step added at either
    end so that interpolation in time covers every observation. Times are
    whole day numbers. */
module TimeWindow {
  import opened RunConfig

  /** The number of days of missing overlap accepted without a warning. */
  const Tolerance: int := 14

  /** The time axis of the result file: unique and in order. */
  predicate Ascending(times: seq<int>) {
    forall i, j :: 0 <= i < j < |times| ==> times[i] < times[j]
  }

  /** get_indexer(method='pad'): the last time step at or before t, -1 when
      every time step is after t. */
  function PadIndex(times: seq<int>, t: int): (i: int)
    requires Ascending(times)
    ensures -1 <= i < |times|
    ensures i == -1 <==> |times| == 0 || t < times[0]
    ensures i >= 0 ==> times[i] <= t && (i + 1 < |times| ==> t < times[i + 1])
  {
    if |times| == 0 then -1
    else if times[|times| - 1] <= t then |times| - 1
    else PadIndex(times[..|times| - 1], t)
  }

  /** get_indexer(method='backfill'): the first time step at or after t, -1
      when every time step is before t. */
  function BackfillIndex(times: seq<int>, t: int): (i: int)
    requires Ascending(times)
    ensures -1 <= i < |times|
    ensures i == -1 <==> |times| == 0 || times[|times| - 1] < t
    ensures i >= 0 ==> t <= times[i] && (i > 0 ==> times[i - 1] < t)
  {
    if |times| == 0 then -1
    else if t <= times[0] then 0
    else
      var j := BackfillIndex(times[1..], t);
      if j < 0 then -1 else j + 1
  }

  /** ti_s: one step before the pad index of the first observation. */
  function StartOffset(times: seq<int>, obsFirst: int): int
    requires Ascending(times)
  {
    PadIndex(times, obsFirst) - 1
  }

  /** The first time step read: ti_s, one step before the pad index, or the
      first step when ti_s is negative. It is at or before the first
      observation unless the simulation starts later, and no step from the
      observation period on comes before it. */
  function StartIndex(times: seq<int>, obsFirst: int): (s: nat)
    requires Ascending(times) && |times| > 0
    ensures s < |times|
    ensures times[s] <= obsFirst || (s == 0 && StartOffset(times, obsFirst) < -1)
    ensures forall i :: 0 <= i < |times| && obsFirst <= times[i] ==> s <= i
    ensures PadIndex(times, obsFirst) >= 1 ==> s == PadIndex(times, obsFirst) - 1
    ensures PadIndex(times, obsFirst) < 1 ==> s == 0
  {
    var tiS := StartOffset(times, obsFirst);
    if tiS < 0 then 0 else tiS
  }

  /** The last time step read: ti_e, or the last step when ti_e is negative
      (the simulation ends before the last observation). */
  function EndIndex(times: seq<int>, obsLast: int): (e: nat)
    requires Ascending(times) && |times| > 0
    ensures e < |times|
    ensures obsLast <= times[e] || (e == |times| - 1 && BackfillIndex(times, obsLast) < 0)
    ensures forall i :: 0 <= i < |times| && times[i] <= obsLast ==> i <= e
    ensures BackfillIndex(times, obsLast) >= 0 ==> e == BackfillIndex(times, obsLast)
    ensures BackfillIndex(times, obsLast) < 0 ==> e == |times| - 1
  {
    var tiE := BackfillIndex(times, obsLast);
    if tiE < 0 then |times| - 1 else tiE
  }

  /** The step added before the simulation's heads: the day before the first
      observation, when ti_s < -1. */
  function Before(times: seq<int>, obsFirst: int): (b: seq<int>)
    requires Ascending(times) && |times| > 0
    ensures b == [] || (b == [obsFirst - 1] && obsFirst < times[0])
  {
    if StartOffset(times, obsFirst) < -1 then [obsFirst - 1] else []
  }

  /** The step added after the simulation's heads: the day after the last
      observation, when ti_e < 0. */
  function After(times: seq<int>, obsLast: int): (a: seq<int>)
    requires Ascending(times) && |times| > 0
    ensures a == [] || (a == [obsLast + 1] && times[|times| - 1] < obsLast)
  {
    if BackfillIndex(times, obsLast) < 0 then [obsLast + 1] else []
  }

  /** The warnings raised and the time axis of the heads used for
      interpolation. */
  datatype Window = Window(warnings: seq<Warning>, axis: seq<int>)

  /** The window selection: a warning for each end at which the
      observations reach more than 14 days beyond the simulation, and the
      steps from StartIndex to EndIndex with the added days around them. */
  function SelectWindow(times: seq<int>, obsFirst: int, obsLast: int): (w: Window)
    requires Ascending(times) && |times| > 0
    requires obsFirst <= obsLast
  {
    var startWarn := if StartOffset(times, obsFirst) < 0 && times[0] - obsFirst > Tolerance
                     then [ObservationsStartEarly(obsFirst, times[0])] else [];
    var endWarn := if BackfillIndex(times, obsLast) < 0 && obsLast - times[|times| - 1] > Tolerance
                   then [ObservationsEndLate(obsLast, times[|times| - 1])] else [];
    var s, e := StartIndex(times, obsFirst), EndIndex(times, obsLast);
    var mid := if s <= e then times[s..e + 1] else [];
    Window(startWarn + endWarn, Before(times, obsFirst) + mid + After(times, obsLast))
  }

  /** The start index of the window never passes its end index. */
  lemma WindowBounds(times: seq<int>, obsFirst: int, obsLast: int)
    requires Ascending(times) && |times| > 0
    requires obsFirst <= obsLast
    ensures StartIndex(times, obsFirst) <= EndIndex(times, obsLast)
  {
  }

  /** The warnings: one about the start exactly when the first observation
      is more than 14 days before the first time step, one about the end
      exactly when the last observation is more than 14 days after the last
      time step, in that order. */
  lemma WindowWarnings(times: seq<int>, obsFirst: int, obsLast: int)
    requires Ascending(times) && |times| > 0
    requires obsFirst <= obsLast
    ensures var w := SelectWindow(times, obsFirst, obsLast);
            && |w.warnings| <= 2
            && (ObservationsStartEarly(obsFirst, times[0]) in w.warnings <==> times[0] - obsFirst > Tolerance)
            && (ObservationsEndLate(obsLast, times[|times| - 1]) in w.warnings <==>
                  obsLast - times[|times| - 1] > Tolerance)
            && (|w.warnings| == 2 ==> w.warnings[0].ObservationsStartEarly? && w.warnings[1].ObservationsEndLate?)
  {
  }

  /** The axis is in order and brackets the observation period, so every
      observation time can be interpolated; it keeps every simulation time
      step that falls within the observation period, and every entry is a
      simulation time step except the two added days. */
  lemma WindowCovers(times: seq<int>, obsFirst: int, obsLast: int)
    requires Ascending(times) && |times| > 0
    requires obsFirst <= obsLast
    ensures var a := SelectWindow(times, obsFirst, obsLast).axis;
            && |a| > 0
            && Ascending(a)
            && a[0] <= obsFirst
            && obsLast <= a[|a| - 1]
            && (forall i :: 0 <= i < |times| && obsFirst <= times[i] <= obsLast ==> times[i] in a)
            && (forall t :: t in a ==> t in times || t == obsFirst - 1 || t == obsLast + 1)
  {
    WindowBounds(times, obsFirst, obsLast);
    var s, e := StartIndex(times, obsFirst), EndIndex(times, obsLast);
    var before, after := Before(times, obsFirst), After(times, obsLast);
    var mid := times[s..e + 1];
    var a := before + mid + after;
    assert SelectWindow(times, obsFirst, obsLast).axis == a;
    assert mid[0] == times[s] && mid[|mid| - 1] == times[e];
    assert a[0] == if before == [] then mid[0] else before[0];
    assert a[|a| - 1] == if after == [] then mid[|mid| - 1] else after[0];
    JoinAscending(times, s, e, before, after);
    InWindow(times, obsFirst, obsLast, s, e, before, after);
  }

  /** A slice of the axis with at most one earlier and one later day
      around it is still in order. */
  lemma JoinAscending(times: seq<int>, s: nat, e: nat, before: seq<int>, after: seq<int>)
    requires Ascending(times) && s <= e < |times|
    requires |before| <= 1 && |after| <= 1
    requires |before| == 1 ==> before[0] < times[s]
    requires |after| == 1 ==> times[e] < after[0]
    ensures Ascending(before + times[s..e + 1] + after)
  {
    var mid := times[s..e + 1];
    var a := before + mid + after;
    forall i, j | 0 <= i < j < |a|
      ensures a[i] < a[j]
    {
      if i < |before| {
        assert a[i] == before[0] < times[s] <= mid[0];
      }
      if j >= |before| + |mid| {
        assert a[j] == after[0];
      }
    }
  }

  /** Every time step from s to e is kept by the window, and the window
      holds nothing else besides the added days. */
  lemma InWindow(times: seq<int>, obsFirst: int, obsLast: int, s: nat, e: nat, before: seq<int>, after: seq<int>)
    requires Ascending(times) && s <= e < |times|
    requires before == [] || before == [obsFirst - 1]
    requires after == [] || after == [obsLast + 1]
    requires forall i :: 0 <= i < |times| && obsFirst <= times[i] <= obsLast ==> s <= i <= e
    ensures forall i :: 0 <= i < |times| && obsFirst <= times[i] <= obsLast ==> times[i] in before + times[s..e + 1] + after
    ensures forall t :: t in before + times[s..e + 1] + after ==> t in times || t == obsFirst - 1 || t == obsLast + 1
  {
    var mid := times[s..e + 1];
    forall i | 0 <= i < |times| && obsFirst <= times[i] <= obsLast
      ensures times[i] in before + mid + after
    {
      assert mid[i - s] == times[i];
    }
  }

  /** The first observation exactly on a time step still starts the window
      one step earlier. */
  lemma OneStepEarlier()
    ensures SelectWindow([10, 20, 30], 20, 30) == Window([], [10, 20, 30])
  {
    assert PadIndex([10, 20, 30], 20) == 1;
    assert BackfillIndex([10, 20, 30], 30) == 2;
  }

  /** Observations running 20 days past both ends: two warnings and two
      added days. */
  lemma BothEndsPadded()
    ensures SelectWindow([10, 20, 30], -10, 50)
            == Window([ObservationsStartEarly(-10, 10), ObservationsEndLate(50, 30)], [-11, 10, 20, 30, 51])
  {
    assert PadIndex([10, 20, 30], -10) == -1;
    assert BackfillIndex([10, 20, 30], 50) == -1;
  }
}
