# Price pipeline: a verified model of `common.py`

`common.py` is a six-stage pipeline over a pandas DataFrame of daily prices.
It computes, per security symbol, the percent change from a start close to an
end close. The stages are:

- `startPipeline`, which copies the caller's frame;
- `clean`, which drops the dividend-payment rows;
- `trim`, which keeps only `Close`;
- `flatten_date`, which reshapes one row per (Symbol, Date) into one row per symbol;
- `add_percent_change`, which writes a `Percent Change` column in place;
- `removeOutliers`, a placeholder that returns its frame as it is.

Every stage is wrapped in the `log` decorator.

This project models those stages in Dafny and proves what each one promises.

- `frames.dfy` (module `Frames`) holds the data model. A table is a `Frame`: a list of column names and a list of rows. A row has an index key and one `Cell` per column. A cell is a number (`real`) or `Missing`, which stands for pandas' NaN. The long table's index key is `Obs(symbol, date)`.
- `stages.dfy` (module `Stages`) holds the stages that build a new table from a value: `Log`, `Clean`, `Trim` and `RemoveOutliers`. Each is a pure function with lemmas.
- `flatten.dfy` (module `FlattenDate`) holds `flatten_date`, built as three functions:
  - `SetIndex` numbers the rows within their symbol with one running counter per symbol, as `cumcount` does;
  - `Unstack` gives one row per symbol, with one column per (column, position) label;
  - `Rename` names each label `Start c` or `End c`.

  The lemmas connect the counter walk to an independent definition: "the number of earlier rows of the same symbol". They also prove one row per symbol, the naming rule, and the two-observation case.
- `dataframes.dfy` (module `DataFrames`) holds the stages that act on a frame object:
  - the `DataFrame` class, whose `SetColumn` method is `df[name] = values` done in place;
  - `StartPipeline`, which returns a fresh copy;
  - `AddPercentChange`, which writes the column into the frame it receives.
- `pipeline.dfy` (module `Pipeline`) joins `flatten_date` and `add_percent_change` on a trimmed table with two closes per symbol.

Errors are values. A missing `Dividends`, `Close`, `End Close` or `Start Close` column is `Err(MissingColumn(name))`, standing for pandas' `KeyError`. A `Date` or `Symbol` column that `reset_index` cannot insert again is `Err(ColumnExists(name))`, standing for its `ValueError`.

## Model

| member | source | states |
|---|---|---|
| `Stages.Log` | common.py:4-11 | the wrapped stage accepts every table the stage accepts and returns exactly what the stage returns |
| `DataFrames.StartPipeline` | common.py:14-15 | the result is a freshly allocated frame with the same columns, rows and index as the caller's |
| `DataFrames.StartPipelineIsolates` | common.py:14-15 | a column written into the copy, as line 38 does, leaves the caller's frame unchanged; the copy is a different object |
| `Stages.Drop` | common.py:19 | dropping by label keeps exactly the rows whose key is not dropped, each as many times as it occurred, and never adds rows |
| `Stages.Clean` | common.py:18-20 | fails with a missing-column error exactly when `Dividends` is absent; otherwise keeps every column, keeps every row whose key belongs to no dividend row as many times as it occurred and drops all others, and no surviving row pays a dividend |
| `Stages.DropKeepsOrder` | common.py:19 | the rows left after a drop are a subsequence of the input, in their original relative order |
| `Stages.CleanKeepsOrder` | common.py:18-20 | the survivors of `clean` keep their original relative order and all their cells |
| `Stages.CleanWellFormed` | common.py:19 | cleaning keeps one cell per column in every row |
| `Stages.CleanUniqueKeys` | common.py:19 | with unique index keys, `clean` keeps exactly the rows whose `Dividends` is not above 0.0, in order |
| `Stages.Trim` | common.py:23-24 | fails exactly when `Close` is absent; otherwise the columns are exactly `["Close"]`, and the row count, row keys and each row's close are unchanged |
| `Stages.TrimKeepsClose` | common.py:24 | reading `Close` after trimming gives the value it had before |
| `FlattenDate.NumberAt` | common.py:32 | numbering keeps one entry per row, in order, each carrying its row and the row's own symbol |
| `FlattenDate.NumberCounts` | common.py:32 | the running per-symbol counter gives each row its starting count plus the number of earlier rows of its symbol |
| `FlattenDate.SetIndex` | common.py:32 | one entry per row, in order, keyed by the row's own symbol; each row's position is the number of earlier rows with the same symbol |
| `FlattenDate.PositionInGroup` | common.py:32 | the row numbered p is the p-th row of its symbol's group; positions stay below the group's size |
| `FlattenDate.PositionsInOrder` | common.py:32 | of two rows of one symbol, the earlier gets the smaller position |
| `FlattenDate.LookupSetIndex` | common.py:32 | the key (symbol, p) holds the symbol's p-th row exactly when p is below the group's size, and nothing otherwise |
| `FlattenDate.WidthBounds` | common.py:32 | the unstacked positions range over 0 up to the largest position, inclusive |
| `FlattenDate.WidthIsLargestGroup` | common.py:32 | the number of positions equals the size of the largest symbol group |
| `FlattenDate.SymbolsSpec` | common.py:32 | the unstacked index lists every symbol of the table exactly once and nothing else |
| `FlattenDate.LabelsBounds` | common.py:32 | every unstacked label names an existing column and a position below the width |
| `FlattenDate.LabelsOrder` | common.py:32 | the unstacked labels hold every (column, position) pair, each once, ordered by column and then by position |
| `FlattenDate.LabelsTwo` | common.py:32 | with two positions, column j's labels stand at 2j and 2j + 1 |
| `FlattenDate.Unstack` | common.py:32 | every row has one cell per column, no symbol has two rows, and every column is labelled by an original column and a position below the width |
| `FlattenDate.ColumnName` | common.py:33 | a renamed column can be read back into its original column name and whether its position was 0 |
| `FlattenDate.Rename` | common.py:33 | renaming keeps the rows and the number of columns, and each new name reads back as its label's column and whether the label's position was 0 |
| `FlattenDate.Flatten` | common.py:27-34 | the result has one cell per column in every row and no symbol twice; every column is named `Start c` or `End c` after a column c of the input |
| `FlattenDate.FlattenStage` | common.py:27-34 | fails exactly when the table already has a `Date` or `Symbol` column, naming `Date` first as `reset_index` inserts it first; otherwise returns the reshaped table |
| `FlattenDate.FlattenOneRowPerSymbol` | common.py:27-34 | the result has a row for every symbol of the input and no row for a symbol without observations |
| `FlattenDate.FlattenCell` | common.py:32-33 | output column (j, p) is named `Start c` when p = 0 and `End c` otherwise; it holds the symbol's p-th observation of column j, or Missing when the symbol has fewer rows |
| `FlattenDate.FlattenTwoObservations` | common.py:32-33 | with exactly two rows per symbol, each column c becomes `Start c` with the first observation, followed by `End c` with the second |
| `FlattenDate.FlattenCloses` | common.py:27-34 | a trimmed table with two closes per symbol flattens to exactly `Start Close` and `End Close`, holding the symbol's first and second close |
| `DataFrames.DataFrame.constructor` | common.py:15 | a new frame holds exactly the given table |
| `DataFrames.DataFrame.SetColumn` | common.py:38 | the frame's new table is the old one with every column of that name overwritten, or with the column appended when absent |
| `DataFrames.WithColumn` | common.py:38 | assigning a column keeps the row count, order and keys and one cell per column; every column carrying the name takes the values and every other cell is kept; the columns stay the same when the name exists and gain the name at the end, holding the values, otherwise |
| `DataFrames.WithColumnSpec` | common.py:38 | assigning a column, even one whose name is duplicated, keeps the row count, the row keys and every other column; the column reads back as the values; a new name adds exactly one column, at the end |
| `DataFrames.PercentChange` | common.py:38 | the change is defined exactly when both closes are, and then start * (1 + change / 100) = end |
| `DataFrames.PercentChangeSign` | common.py:38 | with a positive start close the change is positive exactly when the close rose |
| `DataFrames.PercentChangeExample` | common.py:38 | a close of 100 followed by 150 gives a change of 50 |
| `DataFrames.PercentChanges` | common.py:38 | one cell per row, defined exactly where the row has both closes, and then taking `Start Close` to `End Close` as above |
| `DataFrames.PercentChangeColumn` | common.py:38 | after the write, every row's `Percent Change` is its change from `Start Close` to `End Close`; both closes, the row count and the keys are unchanged; exactly one column is added when absent |
| `DataFrames.AddPercentChange` | common.py:37-39 | reports `End Close` missing first and then `Start Close`, leaving the frame untouched on error; otherwise writes the column into the same frame, into every column already named `Percent Change`, and returns that frame |
| `Stages.RemoveOutliersIdempotent` | common.py:42-43 | `removeOutliers` returns its table unchanged, so applying it twice equals applying it once |
| `Pipeline.FlattenedPercentChange` | common.py:27-39 | `flatten_date` succeeds on the trimmed table, and each symbol's row ends up as `Start Close`, `End Close`, `Percent Change`, the last being the change from the first close to the second |

## Left out

- The timing and the printed line of `log` (common.py:6, 8-9) read the wall clock and write to standard output. The wrapper is modelled as a pure pass-through.
- Floating point: prices are exact `real`s, so there is no rounding at common.py:38. NaN is modelled as `Missing`. A missing `Dividends` compares false with 0.0, as NaN does, so such a row is kept.
- `DataFrames.AddPercentChange`: requires a non-zero `Start Close` on every row. common.py:38 does not guard against a zero `Start Close`: it divides by it, and pandas yields inf or NaN, which exact reals cannot express. No replacement value for that case is modelled, since the code has none.
- `DataFrames.AddPercentChange`: requires `Start Close` and `End Close` to be unique column names. pandas would read a duplicated name as a sub-frame, and that case is not modelled.
- `Stages.Clean`: requires `Dividends` to be a unique column name, for the same reason.
- `Stages.Trim`: requires `Close` to be a unique column name, for the same reason.
- `FlattenDate.Flatten` lists the output symbols in order of first appearance. `unstack` sorts them.
- `FlattenDate.Flatten` is the reshaping alone and accepts a table with a `Date` or `Symbol` column. The `ValueError` that `reset_index` (common.py:28) raises for such a table is modelled by `FlattenDate.FlattenStage`, which returns `Flatten`'s table only when neither column is present.
- `FlattenDate.Flatten` reshapes only the table's columns. The index levels other than `Symbol` that `reset_index` (common.py:28) turns back into columns are not modelled. A `Date` level, for example, would add `Start Date` and `End Date`.
- With more than two rows for a symbol, the model keeps every position's column, so several columns are named `End c`. Which of these pandas would later read is not modelled. The two-row properties are stated under `TwoPerSymbol`.
- `Stages.Trim` keeps `Close` alone, as common.py:24 does. The symbol and the date survive only as the row's index key, not as columns.
- The commented-out `pivot_table` variant (common.py:29-31) is not modelled.
- Index keys are values of one type with plain equality. pandas' alignment of index labels across frames is not modelled.
