/** Run-level validation of WellStats: which statistic is computed (the
    HeadItemText setting), which observation column it needs, the fatal
    errors that stop a run, and the ordered warning log the run writes out. */
module RunConfig {
  import opened Wrappers

  /** The three kinds of statistics: depth to top phreatic surface, depth to
      bottom phreatic surface, and head elevation in the saturated zone. */
  datatype StatType = Dtp | Dtb | Head

  const DtpText: string := "depth to top phreatic surface (negative)"
  const DtpAliasText: string := "depth to phreatic surface (negative)"
  const DtbText: string := "depth to bottom phreatic surface (negative)"
  const HeadText: string := "head elevation in saturated zone"

  /** The errors on which the program calls sys.exit: nothing is written. */
  datatype Fatal =
    | UnknownHeadItemText(text: string)
    | MissingObservationColumn(column: string)
    | GridNotSorted
    | LayerBottomsNotDecreasing
    | NoValidObservations

  /** Warnings collected in out_warn, in the order they are raised. Each
      carries the context its message prints. Times are day numbers, wells
      are ordinals in the well table. */
  datatype Warning =
    | ObservationsStartEarly(obsFirst: int, simFirst: int)
    | ObservationsEndLate(obsLast: int, simLast: int)
    | AboveTopography(well: nat, x: real, y: real, excess: real, topo: real)
    | BelowLowestLayer(well: nat, x: real, y: real, shortfall: real, lowest: real)

  /** The text of HeadItemText that selects a statistic kind. */
  predicate Accepted(text: string) {
    text == DtpText || text == DtpAliasText || text == DtbText || text == HeadText
  }

  /** Mode selection: two texts mean depth to top phreatic surface, one each
      the other two kinds, anything else aborts. */
  function SelectMode(text: string): (r: Result<StatType, Fatal>)
    ensures r.Success? <==> Accepted(text)
    ensures r.Failure? ==> r.error == UnknownHeadItemText(text)
    ensures r == Success(Dtp) <==> text == DtpText || text == DtpAliasText
    ensures r == Success(Dtb) <==> text == DtbText
    ensures r == Success(Head) <==> text == HeadText
  {
    if text == DtpText || text == DtpAliasText then Success(Dtp)
    else if text == DtbText then Success(Dtb)
    else if text == HeadText then Success(Head)
    else Failure(UnknownHeadItemText(text))
  }

  /** The canonical HeadItemText of each kind. */
  function ModeText(m: StatType): string {
    match m
    case Dtp => DtpText
    case Dtb => DtbText
    case Head => HeadText
  }

  /** Every kind has a text that selects it, and distinct kinds have distinct
      texts, so the selection is a left inverse of ModeText. */
  lemma SelectModeText(m: StatType)
    ensures SelectMode(ModeText(m)) == Success(m)
    ensures forall m' :: ModeText(m') == ModeText(m) ==> m' == m
  {
  }

  /** The observation column read for each kind: depth to water table for
      the phreatic kinds, absolute water level for heads. */
  function ObservationColumn(m: StatType): string {
    if m == Head then "PEJL" else "WTDEPTH"
  }

  /** The required-column check: the run aborts when the observation file
      has no column for the selected kind. */
  function RequireObservationColumn(m: StatType, columns: set<string>): (r: Result<string, Fatal>)
    ensures r.Success? <==> ObservationColumn(m) in columns
    ensures r.Success? ==> r.value == ObservationColumn(m)
    ensures r.Failure? ==> r.error == MissingObservationColumn(ObservationColumn(m))
  {
    var c := ObservationColumn(m);
    if c in columns then Success(c) else Failure(MissingObservationColumn(c))
  }

  /** Both start-up checks in program order: mode first, then column. */
  function Configure(text: string, columns: set<string>): (r: Result<(StatType, string), Fatal>)
    ensures r.Success? <==> Accepted(text) && ObservationColumn(SelectMode(text).value) in columns
    ensures r.Success? ==> SelectMode(text) == Success(r.value.0) && r.value.1 == ObservationColumn(r.value.0)
    ensures !Accepted(text) ==> r == Failure(UnknownHeadItemText(text))
  {
    var m :- SelectMode(text);
    var c :- RequireObservationColumn(m, columns);
    Success((m, c))
  }

  /** The run stops when no observation is left after wells outside the
      model domain were dropped. */
  function RequireObservations<T>(obs: seq<T>): (r: Result<seq<T>, Fatal>)
    ensures r.Failure? <==> |obs| == 0
    ensures r.Failure? ==> r.error == NoValidObservations
    ensures r.Success? ==> r.value == obs
  {
    if |obs| == 0 then Failure(NoValidObservations) else Success(obs)
  }

  /** The append-only warning list of one run. */
  class WarningLog {
    var entries: seq<Warning>

    constructor ()
      ensures entries == []
    {
      entries := [];
    }

    method Append(w: Warning)
      modifies this
      ensures entries == old(entries) + [w]
    {
      entries := entries + [w];
    }
  }
}
