# WaterBench MIKE SHE Skjern — WellStats and the .etv reader in Dafny

This project models the core of two Python tools that go with a MIKE SHE
groundwater model of the Skjern catchment.

- **WellStats** (`code/WellStats.py`, `main()`) compares simulated
  groundwater heads, or depths to the phreatic surface, with well
  observations. The model covers these steps of one run:
  - It selects the kind of statistic from the `HeadItemText` setting and
    checks that the observation file has the matching column.
  - It chooses the time steps of the result file that cover the observation
    period, warns when the observations reach more than 14 days beyond it,
    and pads the time axis by one day at either end when needed.
  - It joins each well's observation comments.
  - It checks that the grid axes are sorted, locates each well's cell with
    `searchsorted`, and checks the columns of layer bottoms.
  - It resolves every well's filter into a computational layer. The two
    clamped edge cases tag the well's comment and log a warning.
  - It aborts when no observation is left.
  - It extracts the simulated heads at every observation, including the
    dry-cell cascade: an observation whose layer has gone dry takes its
    values from the first deeper layer that is not dry, or from the lowest
    layer once the cascade has stepped past it (a dry observation in the
    lowest layer keeps its values and is noted 1 below).
  - It computes the error statistics per observation and per well, and
    flips the layer numbers from MIKE SHE's bottom-up order to the reported
    top-down order. In head mode only, it also builds the per-layer table.
- **read_plot_etv** (`code/tools.py`) reads a MIKE SHE `.etv` vegetation
  file. It runs line by line as a state machine over the current
  vegetation block, the vegetation name and the current stage. It returns
  one table per vegetation name, holding the (stage, value) records of the
  requested variable, ordered by stage.

Modules:

| file | module | models |
|---|---|---|
| `wrappers.dfy` | `Wrappers` | `Option` and `Result` |
| `run_config.dfy` | `RunConfig` | mode selection, the required column, the fatal errors, the warning log (a class) |
| `time_window.dfy` | `TimeWindow` | the time steps read from the result file |
| `comments.dfy` | `Comments` | the union of the observation comments of a well |
| `grid.dfy` | `Grid` | the grid checks, `searchsorted`, and the layer-bottom check as written and as intended |
| `layer_resolver.dfy` | `LayerResolver` | the well loop that assigns layers (class `WellTable`) |
| `layer_sampling.dfy` | `LayerSampling` | the sampling of the simulated fields at the observations, layer by layer |
| `dry_cascade.dfy` | `DryCascade` | the extraction of simulated values and the dry-cell cascade (class `ObservationTable`) |
| `statistics.dfy` | `Statistics` | the err/err2 columns, the well means, the layer flip, the layer table |
| `etv_reader.dfy` | `EtvReader` | the `.etv` reader (class `EtvParser`) and its result assembly |

Conventions used in the model:

- **Simulated fields.** A field is a function parameter: (observation
  ordinal, layer) -> value. There is one for the nearest-cell sample and one
  for the linear interpolation.
- **Missing values.** A missing value (NaN or NA) is `None`.
- **Times.** Times are whole day numbers.
- **Layers.** Internal layers count bottom-up (0 is the lowest layer), as
  in MIKE SHE.
- **Reading a number from text.** `float()` in the `.etv` reader is the
  parameter `parse`. It returns `None` where Python raises `ValueError`.

## Model

| member | source | states |
|---|---|---|
| RunConfig.SelectMode | code/WellStats.py:97-108 | The run succeeds exactly for the four accepted texts. Both "depth to (top) phreatic surface" texts select dtp, the bottom text selects dtb, the head text selects head. Any other text aborts with UnknownHeadItemText. |
| RunConfig.SelectModeText | code/WellStats.py:97-102 | Each kind's text selects that kind, and distinct kinds have distinct texts. |
| RunConfig.RequireObservationColumn | code/WellStats.py:110-122 | The check succeeds iff the kind's column (WTDEPTH for dtp and dtb, PEJL for head) is in the file. Otherwise it fails with MissingObservationColumn naming that column. |
| RunConfig.Configure | code/WellStats.py:97-122 | The two start-up checks in program order. Success iff the text is accepted and its column is present. An unknown text fails on the mode before the columns are looked at. |
| RunConfig.RequireObservations | code/WellStats.py:317-318 | The run aborts with NoValidObservations iff no observation is left. Otherwise the observations pass unchanged. |
| RunConfig.WarningLog.Append | code/WellStats.py:143-145 | A warning is appended at the end of the run's list, after all earlier ones. |
| TimeWindow.PadIndex | code/WellStats.py:140 | get_indexer 'pad': -1 iff the axis is empty or every step is after t. Otherwise it returns the last step at or before t, with the next step after t. |
| TimeWindow.BackfillIndex | code/WellStats.py:150 | get_indexer 'backfill': -1 iff every step is before t. Otherwise it returns the first step at or after t, with the previous step before t. |
| TimeWindow.StartIndex | code/WellStats.py:140-149 | The first step read is one step before the pad index of the first observation, or step 0 when the pad index is below 1. So it is at or before the first observation unless the simulation starts after it, and no step from the observation period on comes before it. |
| TimeWindow.EndIndex | code/WellStats.py:150-159 | The last step read is the backfill index of the last observation, or the last step when there is none. So it is at or after the last observation unless the simulation ends before it, and no step up to the observation period's end comes after it. |
| TimeWindow.Before | code/WellStats.py:166-168 | A day is added in front only as the day before the first observation, and only when that day precedes the simulation. |
| TimeWindow.After | code/WellStats.py:169-171 | A day is added at the end only as the day after the last observation, and only when that day follows the simulation. |
| TimeWindow.SelectWindow | code/WellStats.py:139-171 | The selected time window: the warnings, the start and end steps and the padded time axis. WindowBounds, WindowWarnings and WindowCovers state its properties. |
| TimeWindow.WindowBounds | code/WellStats.py:140-159 | The window's start index never passes its end index. |
| TimeWindow.WindowWarnings | code/WellStats.py:141-156 | A start warning iff the first observation is more than 14 days before the first step. An end warning iff the last observation is more than 14 days after the last step. At most two warnings, start before end. |
| TimeWindow.WindowCovers | code/WellStats.py:139-171 | The padded axis is non-empty and ascending, and brackets the whole observation period. It keeps every step inside the period and holds nothing but steps and the two added days. |
| TimeWindow.OneStepEarlier | code/WellStats.py:140 | An observation exactly on a step still starts the window one step earlier, without a warning or an added day. |
| TimeWindow.BothEndsPadded | code/WellStats.py:139-171 | Observations 20 days past both ends give both warnings and both added days. |
| Comments.Present | code/WellStats.py:222 | dropna keeps exactly the present comments. |
| Comments.Distinct | code/WellStats.py:222 | unique holds no duplicates and the same set of comments. |
| Comments.CommentUnion | code/WellStats.py:222 | The well comment is missing iff none of its observations has a comment. |
| Comments.AddTag | code/WellStats.py:284-287 | A tag always leaves a comment present. |
| Comments.AddTagAppends | code/WellStats.py:293-296 | Tagging a comment adds exactly that tag after the existing ones, whether the comment was missing or not. |
| Comments.UnionTags | code/WellStats.py:222 | Splitting the well comment on ';' gives each distinct observation comment once, in order of first appearance (comments without ';'). |
| Comments.SplitJoin | code/WellStats.py:222 | ';'.join followed by split(';') is the identity on parts without ';'. |
| Grid.IncreasingIsSorted | code/WellStats.py:254-255 | The neighbour-wise check xs[:-1] < xs[1:] holds iff every pair of coordinates is in index order. |
| Grid.SearchSorted | code/WellStats.py:257-258 | Binary search returns the left insertion point. On a grid coordinate it returns that coordinate's index. |
| Grid.SearchAll | code/WellStats.py:257-258 | Every query gets its left insertion point. A query that is a grid coordinate gets its index. |
| Grid.CellIndices | code/WellStats.py:253-258 | The run aborts with GridNotSorted iff either axis is not strictly increasing. Otherwise every well's x and y get their insertion points. |
| Grid.CountAllStepsDown | code/WellStats.py:261 | The count is positive iff some well's column of bottoms steps down at every layer. |
| Grid.BottomsCheckAsWritten | code/WellStats.py:261-262 | As written: the run aborts iff some well's column steps down at every layer (vacuously so for one layer). |
| Grid.BottomsCheck | code/WellStats.py:260-262 | As intended: the run aborts unless every column of bottoms is strictly ordered (decreasing from the top down). |
| Grid.OneLayerColumnAborts | code/WellStats.py:261-262 | A one-layer column is aborted by the check as written and accepted by the intended one. |
| Grid.FoldedColumnPasses | code/WellStats.py:261-262 | A column with a bottom out of order passes the check as written and is rejected by the intended one. |
| Grid.IntendedPassesWritten | code/WellStats.py:261-262 | Every set of columns of two or more layers that the intended check accepts, the written check accepts too. |
| LayerResolver.HighestAtOrBelow | code/WellStats.py:301 | The highest layer whose bottom is at or below the filter, with every higher layer's bottom above it. -1 when there is none. |
| LayerResolver.Place | code/WellStats.py:280-301 | The placement of one well's filter: its layer and the edge case it hits, if any. The layer is always a layer of the model. PlacementCases, PlacementIsContainingLayer and PlacementWarnings state the rest. |
| LayerResolver.PlacementCases | code/WellStats.py:280-301 | Three cases. A filter above the surface goes to the top layer, flagged AboveTopography. One below the lowest bottom goes to layer 0, flagged BelowLowestLayer. Otherwise, unflagged, it goes to the highest layer whose bottom is at or below the filter. |
| LayerResolver.PlacementIsContainingLayer | code/WellStats.py:300-301 | Under ordered bottoms, an in-range filter is placed in the one layer that contains it. |
| LayerResolver.PlacementWarnings | code/WellStats.py:288-298 | One warning per flagged well, none for a well in range. |
| LayerResolver.OneWarningPerFlaggedWell | code/WellStats.py:277-304 | The loop logs exactly as many warnings as there are flagged wells. |
| LayerResolver.WellTable.ResolveLayers | code/WellStats.py:274-304 | Each well gets its placement's layer and its column of bottoms. Its comment gets the edge case's tag. The warnings of all wells are appended to the log in table order. |
| LayerResolver.WellTable.ResolveWell | code/WellStats.py:278-303 | One pass of the well loop: only the current well's layer, bottoms and comment change, and only its warning is logged. |
| LayerResolver.InRangeExample | code/WellStats.py:300-301 | A filter at elevation 5 with bottoms -10, 0, 8 lies in layer 1, untagged. |
| LayerResolver.AboveTopographyExample | code/WellStats.py:282-287 | A negative depth puts the well in the top layer and makes its comment the tag. |
| DryCascade.DryCell | code/WellStats.py:371-372 | The dry criterion for one cell: the head is less than eps above the layer bottom, and the head one layer down is more than eps below it. DryExample is a case of it. |
| DryCascade.DryAfter | code/WellStats.py:409-412 | Whether an observation is still dry after k cascade steps: dry at every step up to k, and not past the lowest layer. DryShrinks, StillAboveBottom and ResolvesOnce state its properties. |
| DryCascade.DryShrinks | code/WellStats.py:409-412 | The dry set only shrinks: dry after k steps means dry at every earlier step. |
| DryCascade.StillAboveBottom | code/WellStats.py:412 | An observation stays dry only while the cascade has not stepped past the lowest layer. |
| DryCascade.Resolution | code/WellStats.py:376-415 | An initially dry observation resolves at a step between 1 and its layer + 1. |
| DryCascade.ResolvesOnce | code/WellStats.py:414-415 | An initially dry observation leaves the dry set at exactly one step, its Resolution. |
| DryCascade.SourceLayer | code/WellStats.py:414-418 | The reported layer is never above the assigned one, and is the assigned one when that layer is not dry. |
| DryCascade.StepAt | code/WellStats.py:381-418 | One cascade step, for one observation: its new dry flag is the dry test k layers down. Either it resolves, taking layer-k's samples and the note k, or nothing changes. |
| DryCascade.StepPost | code/WellStats.py:389-418 | The same for the whole observation table. |
| LayerSampling.InterpolateByLayer | code/WellStats.py:397-407 | The layer-by-layer interpolation gives every observation the interpolation at its layer (shifted down, clipped at 0), whatever the grouping. |
| LayerSampling.SampleField | code/WellStats.py:379-390 | ds.sel of a field at each observation, shift layers below its own and clipped at the lowest layer. |
| LayerSampling.SampleBottoms | code/WellStats.py:408 | The bottom of the layer shift below each observation's own, clipped at the lowest layer. |
| LayerSampling.SampleLayers | code/WellStats.py:379-408 | The samples of one cascade pass: nearest-cell values k and k + 1 layers down, the interpolation k layers down and the bottom of the layer k down. Retest and CascadeStep build the cascade state from them. |
| DryCascade.Retest | code/WellStats.py:409-418 | From the samples k layers down, the state after k - 1 steps becomes the state after k steps. |
| DryCascade.DryBound | code/WellStats.py:409-412 | While any observation is dry, the cascade has not passed the top layer, so the loop ends. |
| DryCascade.CascadeStep | code/WellStats.py:377-418 | The loop body keeps the cascade state: dry flags, samples and notes after k steps. |
| DryCascade.InitialSamples | code/WellStats.py:329-372 | The samples at each observation's own layer and the initial dry test give the state after 0 steps. |
| DryCascade.CascadeLoop | code/WellStats.py:374-419 | The loop runs at most itop + 1 steps and ends with no observation dry. |
| DryCascade.Cascade | code/WellStats.py:334-419 | Every observation holds the nearest and interpolated samples of its source layer. An initially dry one carries the note of its resolution step, which the loop reached. |
| DryCascade.ObservationTable.ExtractHeads | code/WellStats.py:323-419 | The sim_cell, sim_intp and dry columns are those of Cascade, and the step count is at most the number of layers. |
| DryCascade.ObservationTable.ExtractDepths | code/WellStats.py:423-432 | Depth mode: both samples are negated, positive below ground. |
| DryCascade.DryExample | code/WellStats.py:371-372 | A head of 4.0, below its layer's bottom of 4.5, with 3.0 one layer down and eps 0.1, is dry. |
| Statistics.ErrorOf | code/WellStats.py:439 | err is present iff the observation is, and sim + err == obs. |
| Statistics.SquareOf | code/WellStats.py:440 | err2 is present iff err is, and is never negative. |
| Statistics.Errors | code/WellStats.py:439 | The err column, element by element. |
| Statistics.Squares | code/WellStats.py:440 | The err2 column, element by element. |
| Statistics.GroupMean | code/WellStats.py:443-445 | The pandas groupby mean of one group, skipping missing values, and missing when the group has no value. MeanWithinValues and MeanBetweenValues state its properties. |
| Statistics.MeanBetweenValues | code/WellStats.py:443-445 | A group mean exists iff some row of the group has a present value, and then lies between two of the group's present values. |
| Statistics.WellMeans | code/WellStats.py:443-445 | A well's mean exists iff one of its observations has a present value. It then lies between two of that well's present values. |
| Statistics.MeanWithinValues | code/WellStats.py:456-459 | A group mean exists iff the group has a present value, and then lies between the group's smallest and largest values. |
| Statistics.StatsOfWell | code/WellStats.py:443-445 | One well's obs_mean (line 221), sim_mean, ME and MSE, each a group mean over the well's observations. MeanErrorIsDifference and MseNonNegative state its properties. |
| Statistics.MeanErrorIsDifference | code/WellStats.py:439-444 | With no missing observation: ME is obs_mean minus sim_mean, and the four statistics exist iff the well has observations. |
| Statistics.ErrorSums | code/WellStats.py:439-444 | A group's errors sum to its observed total minus its simulated total. |
| Statistics.MseNonNegative | code/WellStats.py:440-445 | MSE exists iff ME does, and is never negative, so its square root in the layer table is defined. |
| Statistics.Flip | code/WellStats.py:448-449 | The reported layer of internal layer l: itop + 1 - l. FlipIsReversal, FlipOnto and FlippedSize state its properties. |
| Statistics.FlipAll | code/WellStats.py:448-449 | The flip applied to a whole layer column: each entry becomes itop + 1 minus its internal layer, position by position. FlipIsReversal and FlipOnto state the flip's properties. |
| Statistics.FlipIsReversal | code/WellStats.py:447-449 | The flip maps internal layers 0..itop onto 1..itop+1, reverses their order and undoes itself. |
| Statistics.FlipOnto | code/WellStats.py:447-449 | Every reported layer comes from exactly one internal layer. |
| Statistics.FlippedSize | code/WellStats.py:448-449 | Counting reported layer L is counting internal layer itop + 1 - L. |
| Statistics.SizesPartition | code/WellStats.py:460-461 | Summing the group sizes over a range of keys that covers every row gives the number of rows. |
| Statistics.RowFor | code/WellStats.py:455-461 | One row of the layer table: the mean squares, the mean errors and the counts of wells and observations in that reported layer. LayerTable and FlippedCountsCover state its properties. |
| Statistics.LayerTable | code/WellStats.py:452-461 | The per-layer table, built in head mode only. Rows for layers 1 to itop+1, each holding its layer's statistics. When every layer is in range, the nobs and nwells columns sum to the numbers of observations and wells. |
| Statistics.FlippedCountsCover | code/WellStats.py:460-461 | Every internal layer in range is counted once by the layer table after the flip. |
| EtvReader.Strip | code/tools.py:30 | strip(): the line without leading and trailing whitespace. StripParts states its properties. |
| EtvReader.StripParts | code/tools.py:30 | strip() leaves a middle part with no leading or trailing whitespace, between two runs of whitespace. |
| EtvReader.HeaderDigits | code/tools.py:33-46 | The match of a `[VegNo_n]` or `[Stage_n]` header at the start of the line, giving its digits. HeaderShape and HeaderRoundTrip state its properties. |
| EtvReader.HeaderShape | code/tools.py:33 | A recognised header is the tag, at least one digit and ']'. |
| EtvReader.HeaderRoundTrip | code/tools.py:46 | Every header of digits is recognised, with its digits, whatever follows it. |
| EtvReader.NameShape | code/tools.py:41 | A VEGNAME match yields a non-empty name without quotes. |
| EtvReader.NameRoundTrip | code/tools.py:41-43 | VEGNAME, spaces, '=', spaces and a quoted name give back that name. |
| EtvReader.SearchLeftmost | code/tools.py:41 | re.search finds the leftmost position where the pattern matches, and nothing only when it matches nowhere. |
| EtvReader.FindVegName | code/tools.py:40-43 | re.search of the VEGNAME pattern, giving the quoted name at the leftmost match. FindVegNameLeftmost, NameShape and NameRoundTrip state its properties. |
| EtvReader.FindVegNameLeftmost | code/tools.py:40-43 | A line assigns a name iff the pattern matches somewhere in it. The name is the one at the leftmost match. |
| EtvReader.ValueField | code/tools.py:54 | split('=')[1]: the text between the first '=' and the next, missing when the line has no '='. ValueFieldShape and ValueFieldRoundTrip state its properties. |
| EtvReader.ValueFieldShape | code/tools.py:54 | split('=')[1] is missing iff the line has no '=', and holds no '='. |
| EtvReader.ValueFieldRoundTrip | code/tools.py:54 | The text between the first and the next '=' is recovered. |
| EtvReader.AddRecord | code/tools.py:55 | The record is appended to the name's list, which is created if new. Other names and the parser state are unchanged. |
| EtvReader.AddRecordWf | code/tools.py:55 | An append keeps the names distinct, equal to the keys, and each key non-empty. |
| EtvReader.Step | code/tools.py:30-57 | One line of the corrected reader of the code/tools.py:54-57 row under Findings. BlockHeaderClearsName, StageNeedsName, RecordsOnlyValueLines and MalformedSkipped state what it does. |
| EtvReader.Run | code/tools.py:29-57 | The corrected reader over a whole file, line by line. RunAppends, RunWf and RunAsWrittenAgrees state its properties. |
| EtvReader.StepAsWritten | code/tools.py:30-57 | One line of the reader as written, failing with IndexError on a value line without '='. AsWrittenAgrees and MissingEqualsFails state its properties. |
| EtvReader.RunAsWritten | code/tools.py:29-57 | The reader as written over a whole file, stopping at the first failing line. RunAsWrittenAgrees states its relation to Run. |
| EtvReader.BlockHeaderClearsName | code/tools.py:33-37 | A VegNo header starts a block and clears the name. It keeps the stage and records nothing. |
| EtvReader.StageNeedsName | code/tools.py:46-49 | The stage changes only on a Stage header read while a name is known, and then becomes its number. A Stage header outside any block and before any name does nothing. |
| EtvReader.RecordsOnlyValueLines | code/tools.py:52-55 | Records change only on a line that starts with the variable, with a name and a stage known and a value that parses. Then exactly (stage, value) is appended under the name. |
| EtvReader.MalformedSkipped | code/tools.py:53-57 | A value line whose field does not parse leaves the records and names as they were. |
| EtvReader.AsWrittenAgrees | code/tools.py:52-57 | The reader as written fails iff a value line has no '='. On every other line it agrees with the corrected step. |
| EtvReader.RunAsWrittenAgrees | code/tools.py:29-57 | Whenever the reader as written gets through a whole file, its state is the corrected reader's. |
| EtvReader.RunAppends | code/tools.py:29-57 | Records are only ever appended and names keep their order, so blocks with the same name merge in file order. |
| EtvReader.RunWf | code/tools.py:21-57 | From the initial state, names are distinct, are the keys, and each has at least one record. |
| EtvReader.MissingEqualsFails | code/tools.py:52-57 | A value line "LAI" without '=' after a block, a name and a stage: the reader as written stops with IndexError, the corrected one returns no records. |
| EtvReader.Insert | code/tools.py:62 | Insertion keeps the stage order and adds exactly the record. |
| EtvReader.SortByStage | code/tools.py:62 | sort_values('Stage') yields records ordered by stage that are a permutation of the input. |
| EtvReader.EtvParser.constructor | code/tools.py:21-24 | The state starts empty: no block, name or stage, no records. |
| EtvReader.EtvParser.Feed | code/tools.py:30-57 | One pass of the line loop changes the state as Step specifies. Step is the corrected reader of the code/tools.py:54-57 row under Findings. |
| EtvReader.EtvParser.NoteName | code/tools.py:40-43 | Inside a block, a VEGNAME assignment sets the name. Otherwise nothing changes. |
| EtvReader.EtvParser.ReadValue | code/tools.py:53-57 | The try block: the parsed value is appended under the name at the current stage, or the line is skipped. |
| EtvReader.EtvParser.FeedAll | code/tools.py:29-57 | The loop over all lines changes the state as Run specifies. Run is the corrected reader of the code/tools.py:54-57 row under Findings. |
| EtvReader.EtvParser.Frames | code/tools.py:60-63 | One table per collected name, holding its records sorted by stage. |
| EtvReader.ReadEtv | code/tools.py:21-63 | The corrected reader of the code/tools.py:54-57 row under Findings. One table per name that received a value, non-empty, ordered by stage, and exactly the records collected for that name. Whenever the reader as written gets through the file, it has the same names. |

## Left out

- File and model I/O are not modelled: reading the configuration, the observation file, the preprocessed grids and the result file with mikeio/xarray. So are writing the output tables, the `print` calls and the garbage-collector calls. The sampled fields (nearest cell, interpolation in x, y and time, topography, layer bottoms, the grid axes) are parameters of the model.
- The model-domain and SZ-boundary filters are not modelled (code/WellStats.py:227-249). Wells outside the domain are assumed already dropped; the empty-result abort after them is modelled. The boundary warning, and the warnings about non-unique values per intake, are left out with them.
- The warning about depth-to-phreatic wells deeper than 10 m without the 'Trni' marker is not modelled (code/WellStats.py:264-270). It is a text heuristic that does not affect any statistic.
- The well metadata aggregation is not modelled: medians of coordinates, depth and counts per well. Only the comment union and the means that feed the statistics are modelled.
- Warnings are values carrying the numbers their messages print; the formatted message text is not modelled. Fatal errors are `Failure` values instead of `sys.exit` with a message.
- The 'dry' column holds `Some(k)` for the text "Layer dry - k below".
- Statistics.LayerTable: the two RMSE columns are held as the mean squares whose `np.sqrt` they are. Real square roots are not modelled, and the relation RMSE >= |ME| is not proved.
- Floating point is modelled as real arithmetic. This covers the float32 columns, rounding, and NaN in the observations (as `None`); `float()` is the `parse` parameter. The simulated fields are assumed never missing: a NaN sample, such as an interpolation next to a delete-value cell, is outside the model.
- LayerSampling.InterpolateByLayer keeps the grouping by layer, but not the memory saving it is there for.
- The plotting part of `read_plot_etv` (code/tools.py:65 onward) is not modelled.
- EtvReader.IsSpace: `strip()` and the regular expression `\s` are modelled on the six ASCII whitespace characters. The ASCII separators 0x1C to 0x1F and non-ASCII whitespace are not modelled. `\d` is modelled as the ASCII digits.
- EtvReader.NameStep: the test `'VEGNAME' in line` is not modelled separately, because a match of the VEGNAME pattern implies it.
- EtvReader.SortByStage: pandas' default sort is not stable. So only the order by stage and the multiset of records are promised, not the order among records of equal stage.
- EtvReader.EtvParser: the insertion order of the result dictionary is kept as the list `names`. The final result is a map, so its order is not stated.
- TimeWindow.SelectWindow: the time steps are selected by index instead of by the value slice `slice(ts_s, ts_e)`, which selects the same steps on an ascending, unique axis. It requires a non-empty result axis and a first observation no later than the last.
- TimeWindow.SelectWindow: the simulated values at the added days (repeats of the first and last step) are not modelled; only the time axis is.

## Findings

| source | as written | input that shows it | evidently intended | confidence | as-written member | corrected member |
|---|---|---|---|---|---|---|
| code/WellStats.py:261-262 | The columns are indexed bottom-up, so a valid column increases with its index. The check aborts only when some well's column decreases at every index step, i.e. is entirely upside down. A one-layer column meets that vacuously and aborts the run. A column with a single bottom out of order is let through. | A one-layer model (bottoms [[5.0]]) aborts. The column [-10, 8, 0] passes. | Abort unless every column of bottoms decreases strictly from the top layer down, as the comment, the error message and the design of the grid checks say. | not executed; medium | Grid.BottomsCheckAsWritten, Grid.OneLayerColumnAborts, Grid.FoldedColumnPasses | Grid.BottomsCheck, Grid.IntendedPassesWritten |
| code/tools.py:54-57 | `line.split('=')[1]` raises IndexError on a value line without '='. `except ValueError` does not catch it, so the whole read fails. | Lines "[VegNo_1]", "VEGNAME='G'", "[Stage_1]", "LAI" with variable "LAI". | Skip the malformed line, as the comment "Skip malformed lines" says. | not executed; medium | EtvReader.StepAsWritten, EtvReader.MissingEqualsFails | EtvReader.Step, EtvReader.MalformedSkipped |
