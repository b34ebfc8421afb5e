# row_min and the line chart legend: a Dafny model

This project models two small pieces of sequential logic from VictoriaMetrics.

1. **The `row_min` stats function of the log query engine.**
   - `row_min(src, f1, f2, ...)` keeps the smallest value of field `src` over the rows it sees. Beside that value it keeps a snapshot of the row that produced it: fields `f1, f2, ...`, or every field when none are named.
   - Its accumulator (`statsRowMinProcessor`) is modelled as the class `RowMinProcessor.Processor`, with the fields `min` and `fields`.
   - The class feeds single rows and whole blocks into that state and merges two partial states. Every update returns by how many bytes the state grew.
   - Beside it are the parser of the call, its text rendering and the set of fields it asks storage for.
   - `RowMinSpec` states the accumulator's behaviour as functions on values: `Step`, `Run`, `Merge` and `AllRows`. The lemmas about it cover these properties:
     - an empty value never wins;
     - the minimum only moves downward;
     - a run keeps the least value together with the snapshot of the first row that holds it;
     - merging equals feeding both row streams to one accumulator;
     - the shortcuts `updateStatsForAllRows` takes are sound.
2. **The legend and viewport logic of the VMUI line chart.**
   - The hidden-series list is the field of the class `LineChart.LineChartView`. It changes on legend clicks, following a three-branch policy: ctrl-toggle, reset to "show all", and isolate.
   - The legend items and chart datasets are pure projections of the query result and that list.
   - A finished zoom or pan gesture proposes a new time period, or nothing. That proposal is an `Option<Period>` result.

The string order used by `row_min` (lessString) is not part of this model. Every operation takes it as the parameter `less`. Lemmas that need it to order strings require `StrictTotalOrder(less)`: irreflexive, transitive and total on distinct strings.

The chart's helpers are also not part of this model: getNameForMetric, getColorByString, getTimeperiodForDuration and dateFromSeconds. They enter as function parameters, so nothing is assumed about them.

The block result the stats function reads is modelled as named columns of per-row strings (`BlockResults`). A column's storage kind carries the summary the engine keeps for it: the dictionary, the rendered minimum of a numeric column, or the earliest timestamp. The block-result lookup `getColumnByName` is not part of this model's source. Here it is the first column of that name, or a constant column of empty values when the block has none.

## Model

| member | source | states |
|---|---|---|
| `BlockResults.ColumnByName` | lib/logstorage/stats_row_min.go:203-204 | the column read for a name carries that name, has one value per row, and is the first column of that name or, when there is none, a column of empty values |
| `BlockResults.Snapshot` | lib/logstorage/stats_row_min.go:190-212 | the kept fields are named exactly like the block's columns in column order when no fetch fields are given, and exactly like the fetch fields, in their order, otherwise; each field's value is that column's value at the row (for a fetch field, the value of the column getColumnByName returns) |
| `RowMinFunc.ParseStatsRowMin` | lib/logstorage/stats_row_min.go:221-246 | a non-`row_min` name, an unparsable argument list and an empty argument list are the three errors; otherwise the source field is the first argument and the fetch fields are the rest, or empty when the rest contains `*`; a parsed call never holds `*` among its fetch fields |
| `RowMinFunc.RowMinString` | lib/logstorage/stats_row_min.go:19-26 | the text starts with `row_min(` and ends with `)`; without fetch fields it is exactly `row_min(` + the quoted source field + `)` |
| `RowMinFunc.StringListsArguments` | lib/logstorage/stats_row_min.go:19-26 | the rendered text is `row_min(` followed by the quoted source field and fetch fields, comma separated, and `)` |
| `RowMinFunc.ParseInvertsArguments` | lib/logstorage/stats_row_min.go:231-245 | parsing the argument list a parsed call carries gives the same call back |
| `RowMinFunc.ArgumentsInvertParse` | lib/logstorage/stats_row_min.go:235-239 | a parsed call carries exactly the argument list it was parsed from, unless that list contained `*` |
| `RowMinFunc.UpdateNeededFields` | lib/logstorage/stats_row_min.go:28-35 | the source field is always added; `*` is added when there are no fetch fields, otherwise exactly the fetch fields; nothing already needed is dropped |
| `RowMinFunc.NeededFieldsCoverSnapshot` | lib/logstorage/stats_row_min.go:28-35 | every field name a row snapshot of the call holds is among the needed fields, unless `*` is needed |
| `RowMinSpec.NeedUpdate` | lib/logstorage/stats_row_min.go:164-169 | an empty value never wins; any other value wins over an empty minimum; otherwise a value wins exactly when it is less than the minimum, so for an irreflexive order never the minimum itself |
| `RowMinSpec.Step` | lib/logstorage/stats_row_min.go:164-181 | an empty candidate never replaces the state; any non-empty candidate replaces an empty minimum; otherwise a candidate replaces it exactly when it is less; a non-empty minimum never becomes empty |
| `RowMinSpec.RunNeverRaises` | lib/logstorage/stats_row_min.go:171-181 | over any sequence of updates the minimum stays or moves to a non-empty string less than where it started, and a non-empty minimum stays non-empty |
| `RowMinSpec.RunPicksFirstLeast` | lib/logstorage/stats_row_min.go:115-120 | a fresh accumulator fed rows holds nothing exactly when every value was empty; otherwise it holds the least non-empty value with the snapshot of the first row holding that value |
| `RowMinSpec.StepAfterMerge` | lib/logstorage/stats_row_min.go:151-157 | an update after a merge equals merging with the updated source |
| `RowMinSpec.MergeMatchesSequential` | lib/logstorage/stats_row_min.go:151-157 | merging the accumulator of a later run of rows into that of an earlier run gives exactly the state one accumulator reaches on both runs in order |
| `RowMinSpec.MergeMinSymmetric` | lib/logstorage/stats_row_min.go:151-157 | the order of a merge does not change the resulting minimum |
| `RowMinSpec.RunWithoutWinner` | lib/logstorage/stats_row_min.go:171-177 | rows none of whose values would win leave the state unchanged |
| `RowMinSpec.RunFirstRowLeast` | lib/logstorage/stats_row_min.go:52-56 | when no row beats the first row's value, feeding every row is the same as one update with the first row |
| `RowMinSpec.AnyWins` | lib/logstorage/stats_row_min.go:79-84 | the dictionary pre-check holds exactly when some dictionary value would win |
| `RowMinSpec.DictPrefilterSound` | lib/logstorage/stats_row_min.go:79-84 | when no dictionary value would win, reading the rows would not change the state |
| `RowMinSpec.SummaryPrefilterSound` | lib/logstorage/stats_row_min.go:85-110 | when the rendered column minimum would not win and is a lower bound of the column, reading the rows would not change the state |
| `RowMinSpec.AllRowsMatchesRowByRow` | lib/logstorage/stats_row_min.go:47-123 | updating with a whole block leaves the state that updating row by row leaves: always for constant columns and blocks without rows; for dictionary and summary columns whenever their summaries are what they claim; for the `_time` column when row 0 holds the earliest timestamp (`TimeSorted`) and the numeric pre-check lets through every timestamp lessString would let win (`TimestampCheckAgrees`) |
| `RowMinProcessor.SizeOfFields` | lib/logstorage/stats_row_min.go:183-186 | the loop computes the size of the old snapshot: the UTF-8 byte lengths of every name and value, as Go's `len` counts them |
| `RowMinProcessor.RowSnapshot` | lib/logstorage/stats_row_min.go:188-211 | the append loops build exactly the row snapshot and add up the UTF-8 byte lengths of its names and values |
| `RowMinProcessor.SnapshotAllColumns` | lib/logstorage/stats_row_min.go:192-200 | the loop over every column builds the all-columns snapshot of the row and its UTF-8 byte size |
| `RowMinProcessor.SnapshotFetchFields` | lib/logstorage/stats_row_min.go:202-210 | the loop over the fetch fields builds the snapshot of the row and its UTF-8 byte size |
| `RowMinProcessor.AnyDictValueWins` | lib/logstorage/stats_row_min.go:79-84 | the dictionary loop reports exactly whether some dictionary value would win (see `AnyWins`) |
| `BlockResults.ByteLen` | lib/logstorage/stats_row_min.go:179-180 | Go's `len` of a string is the UTF-8 byte length of its text: at least its number of characters, at most four times that |
| `BlockResults.ByteLenAscii` | lib/logstorage/stats_row_min.go:179-180 | the byte length equals the number of characters exactly when the text is ASCII |
| `RowMinProcessor.Processor.constructor` | lib/logstorage/stats_row_min.go:41-45 | a new accumulator has an empty minimum and no snapshot |
| `RowMinProcessor.Processor.UpdateState` | lib/logstorage/stats_row_min.go:171-215 | the new state is one update of the old with the value and that row's snapshot, and the result is exactly new size minus old size |
| `RowMinProcessor.Processor.UpdateStatsForRow` | lib/logstorage/stats_row_min.go:125-149 | whatever the source column's encoding, the value offered is the row's value of that column (for a constant column its one value); the result is the size change |
| `RowMinProcessor.Processor.UpdateStatsForAllRows` | lib/logstorage/stats_row_min.go:47-123 | for every block, rows or none, the state follows the constant, `_time` and pre-checked scanning branches (see `AllRowsMatchesRowByRow`), and the result is the size change |
| `RowMinProcessor.Processor.UpdateStatsForEachRow` | lib/logstorage/stats_row_min.go:115-120 | the row loop leaves the state of the row-by-row run over every row of the block, and returns the size change |
| `RowMinProcessor.Processor.MergeState` | lib/logstorage/stats_row_min.go:151-157 | the destination adopts the source's minimum and snapshot together exactly when the source's minimum would win, and is otherwise unchanged |
| `LineChart.Points` | app/vmui/packages/vmui/src/components/LineChart/LineChart.tsx:28 | one point per sample, in order, with `x` the sample timestamp times 1000 |
| `LineChart.Datasets` | app/vmui/packages/vmui/src/components/LineChart/LineChart.tsx:22-34 | one dataset per series in input order, labelled with the series' name, hidden exactly when the name is in the hidden list, holding that series' points (see `Points`), with border and background in the series' color |
| `LineChart.Labels` | app/vmui/packages/vmui/src/components/LineChart/LineChart.tsx:36-48 | one legend item per series in input order, keyed by the series' name, checked exactly when the key is not hidden, with the value of the `__name__` label (if any) as name, all other labels as label data, and the key's color |
| `LineChart.DatasetsMatchLabels` | app/vmui/packages/vmui/src/components/LineChart/LineChart.tsx:22-48 | each dataset is hidden exactly when its legend item is unchecked, and both carry the same key and color |
| `LineChart.RemoveKey` | app/vmui/packages/vmui/src/components/LineChart/LineChart.tsx:79 | the filter drops every occurrence of the key and keeps every other key |
| `LineChart.KeysExcept` | app/vmui/packages/vmui/src/components/LineChart/LineChart.tsx:83 | the keys of all legend items except the clicked one, in legend order |
| `LineChart.NextHidden` | app/vmui/packages/vmui/src/components/LineChart/LineChart.tsx:76-86 | ctrl on a checked item appends its key; ctrl on an unchecked item leaves every other key and drops that one; a plain click on a checked item while something is hidden clears the list; any other click hides the keys of all other items, in legend order |
| `LineChart.RangeTimeScale` | app/vmui/packages/vmui/src/components/LineChart/LineChart.tsx:50-53 | the extent of the time scale, or 0 to 0 when there is none |
| `LineChart.LineChartView.constructor` | app/vmui/packages/vmui/src/components/LineChart/LineChart.tsx:20 | nothing is hidden initially |
| `LineChart.LineChartView.OnClickLegend` | app/vmui/packages/vmui/src/components/LineChart/LineChart.tsx:76-86 | the hidden list becomes the result of the click policy applied to the legend as rendered before the click |
| `LineChart.OnZoomComplete` | app/vmui/packages/vmui/src/components/LineChart/LineChart.tsx:50-63 | nothing is proposed without a time scale, with a zero bound, or for a range under one second; otherwise exactly the range is proposed |
| `LineChart.OnPanComplete` | app/vmui/packages/vmui/src/components/LineChart/LineChart.tsx:65-74 | nothing is proposed exactly when a bound of the scale is zero or there is no time scale; otherwise the proposal is the window getTimeperiodForDuration gives for the duration at the scale's end, converted by dateFromSeconds |
| `LineChartLemmas.CtrlClickHides` | app/vmui/packages/vmui/src/components/LineChart/LineChart.tsx:79 | ctrl-click on a checked item appends its key, and the item becomes unchecked |
| `LineChartLemmas.CtrlClickShows` | app/vmui/packages/vmui/src/components/LineChart/LineChart.tsx:79 | ctrl-click on an unchecked item removes its key, keeps every other key, and the item becomes checked |
| `LineChartLemmas.RemoveKeyAppended` | app/vmui/packages/vmui/src/components/LineChart/LineChart.tsx:79 | filtering out a key just appended to a list without it gives the list back |
| `LineChartLemmas.CtrlClickTwiceFromChecked` | app/vmui/packages/vmui/src/components/LineChart/LineChart.tsx:78-79 | two ctrl-clicks on a checked item restore the hidden list exactly |
| `LineChartLemmas.CtrlClickTwiceFromUnchecked` | app/vmui/packages/vmui/src/components/LineChart/LineChart.tsx:78-79 | two ctrl-clicks on an unchecked item restore the hidden list as a set |
| `LineChartLemmas.PlainClickShowsAll` | app/vmui/packages/vmui/src/components/LineChart/LineChart.tsx:80-81 | a plain click on a checked item while something is hidden empties the list, and every item becomes checked |
| `LineChartLemmas.KeysExceptIgnoresHidden` | app/vmui/packages/vmui/src/components/LineChart/LineChart.tsx:83 | the keys the isolate branch hides do not depend on what was hidden before |
| `LineChartLemmas.IsolateKeys` | app/vmui/packages/vmui/src/components/LineChart/LineChart.tsx:82-85 | with distinct keys, the isolate list holds the key of every item but the clicked one |
| `LineChartLemmas.PlainClickIsolates` | app/vmui/packages/vmui/src/components/LineChart/LineChart.tsx:82-85 | any other plain click hides the keys of all other items in legend order; with distinct keys only the clicked item stays checked |
| `LineChartLemmas.UndoIsolate` | app/vmui/packages/vmui/src/components/LineChart/LineChart.tsx:80-85 | with distinct keys, when exactly the keys of every other series are hidden (none, for a single series), a plain click on the remaining series clears the list |
| `LineChartLemmas.ZoomExamples` | app/vmui/packages/vmui/src/components/LineChart/LineChart.tsx:57-62 | a 500 ms range is discarded and a 2000 ms range from 1000 to 3000 is proposed as it is |
| `LineChartLemmas.PanIgnoresWidth` | app/vmui/packages/vmui/src/components/LineChart/LineChart.tsx:65-74 | the proposed pan period depends only on the duration and the scale's end, not on the dragged range's width |

## Left out

- lessString, quoteTokenIfNeeded, getNameForMetric, getColorByString, getTimeperiodForDuration and dateFromSeconds are not part of this model. They are parameters, and nothing beyond the strict-order requirement on `less` is assumed about them.
- Value decoding and marshalling are left out: the per-type renderings of column minimums, RFC3339 and ISO8601 timestamp formatting, `bbPool` and `strings.Clone`. A column's values and summaries are given as the strings those renderings produce.
- The numeric timestamp pre-check of the `_time` shortcut is the parameter `timestampLess`. Parsing the current minimum back into a timestamp is not modelled.
- `RowMinSpec.AllRowsMatchesRowByRow`: for the `_time` column it requires that row 0 holds the block's earliest timestamp (`TimeSorted`), because the shortcut snapshots row 0 whatever row holds that timestamp and the block's row order is not part of this model. It also requires that the numeric pre-check lets through every timestamp lessString would let win (`TimestampCheckAgrees`): the shortcut compares int64 timestamps, the row-by-row path compares the rendered strings, and where the two orders disagree the shortcut keeps a state the row-by-row path would replace.
- `getColumnByName`'s treatment of the empty name as `_msg` is not modelled.
- The `fieldsSet` type's special handling of `*` is not modelled: needed fields are a plain set.
- The source of fieldNamesString is not shown; it is modelled as the join of the quoted names with ", ".
- The lexer is not modelled. The parser takes the function-name token, and the argument list or its parse failure. Keyword matching is modelled as exact comparison with `row_min`; any case folding `isKeyword` does is not captured.
- finalizeStats, `MarshalFieldsToJSON` and the `logger.Panicf` branch for an unknown value type are left out.
- Slice aliasing is not modelled. `mergeState` shares the source's fields slice, which a later update of the destination clears in place. In this model fields are immutable sequences.
- `RowMinProcessor.Processor.UpdateStatsForAllRows`: a block without rows leaves the state unchanged in the constant and `_time` branches. For a missing column (value "") that is what the source does. For `_time` it takes getMinTimestamp, which is not part of this model, to report no earlier timestamp for a block without rows. A constant column of a block without rows, whose encoded value the source would still offer with row 0, is not modelled.
- `RowMinProcessor.Processor.UpdateState`: a row index beyond the block is excluded by its precondition; the callers never pass one.
- Strings are modelled as Unicode text, and sizes as the UTF-8 byte length of that text. A Go string holding bytes that are not valid UTF-8 has no counterpart here.
- Go's `int` overflow of the size counter is not modelled: sizes are unbounded integers.
- The 500 ms `debounce` wrapping of the zoom and pan handlers is left out because it is timer-driven. So are React rendering, the chart options and the chart.js scale lookup. A missing time scale is `None`, and the dispatch is the returned `Option<Period>`.
- Sample values are kept as their text: `+v[1]` is floating-point parsing, NaN included. Timestamps and scale bounds are exact reals, with no floating-point rounding. `!min` also being true for NaN is not modelled.
- The clicked legend item is identified by its index among the current legend items. In the source the filter is by object identity, so it removes that one item even when another item shares its key.
- `LineChart.OnPanComplete`: the width of the proposed window is not stated, because getTimeperiodForDuration is a parameter. Only that the proposal is its window at the scale's end, and so independent of the dragged range's width, is proved.
- The legend's presentation component (styles, tooltips, the clipboard copy) is left out; only its item record is modelled.
- The memory-limit probe and the heap allocator helper of the repository are OS and allocator wrappers, and are left out.
