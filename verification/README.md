# Eneco data preparation, modelled in Dafny

`Datasources/Eneco/EnecoDataPrepare.py` converts meter-reading exports from the energy
provider Eneco into two-column files (epoch seconds, value) for Home Assistant's import.
This project models the pure part of that script, starting from data frames that are
already loaded:

- **`prepareData`**: keeps the rows whose date lies between 1970-01-01 and 2099-12-31
  (both bounds inclusive, at midnight). It sorts them ascending by date and replaces each
  date by whole epoch seconds.
- **`filterData`**: narrows the rows with an ordered list of `DataFilter(column, value, equal)`
  filters, one after another.
- **`recalculateData`**: turns a column of deltas into running totals. A NaN reading counts
  as 0, and every later row is `round(own + previous total, 3)`.
- **`generateImportDataFile`**: skips the output when its value column is missing.
  Otherwise it filters, optionally recalculates, and projects to the date and value columns.
- **`correctFileExtensions`**: checks every file name's `os.path.splitext` extension against
  the configured one.
- **`generateImportDataFiles`**: the driver. It checks the extensions, concatenates the
  loaded tables, prepares them and produces one export per output definition.

A data frame is a `Table`: a set of column names and a sequence of rows, where each row
maps every column to a `Cell`. A cell is a timestamp in nanoseconds, an int64, a float64
or a string. Floats are exact `real`s, and NaN, NaT and a field missing after a concat are
all `Num(None)`. `round(x, 3)` is `Rounding.Round3`: scale by 1000, round half to even,
scale back. That is numpy's algorithm, without binary floating-point error. The regular
expression search and pandas' `astype(str)` text are the two fields of a `Matcher`
parameter. Configuration constants (date column, extension, output definitions) are
parameters too.

Modules:

| file | module | contents |
|---|---|---|
| `wrappers.dfy` | `Wrappers` | `Option` |
| `sequences.dfy` | `Sequences` | order-preserving selection, subsequences, mapping, insertion sort |
| `rounding.dfy` | `Rounding` | `round(x, 3)` over reals |
| `frames.dfy` | `Frames` | cells, rows, tables, `DataFilter`, `OutputFileDefinition` |
| `prepare.dfy` | `Prepare` | date window, sort, epoch conversion |
| `filters.dfy` | `Filters` | `filterData` |
| `recalculation.dfy` | `Recalculation`, `RecalculateTable` | the running-total fold, and its application to the value column of a table |
| `output.dfy` | `Output` | `generateImportDataFile` |
| `extensions.dfy` | `Extensions` | `splitext`, `correctFileExtensions` |
| `pipeline.dfy` | `Pipeline` | concatenation and the driver |

Two points about the code's own behaviour shape the model:

- `sort_values` uses pandas' default sort, which is quicksort and not stable. The order of
  rows with equal dates is therefore unspecified. `Prepare.PrepareData` promises only
  "ordered by date and a permutation". Its body uses an insertion sort, which happens to
  keep tied rows in input order. The driver therefore states its result twice: once
  through `PrepareData`, which fixes that tie order, and once over every date ordering of
  the windowed rows, which is the promise the source keeps.
- `recalculateData` stores the first row as read and rounds only the rows after it. The
  model computes exactly that (`Recalculation.Totals`). The variant that also rounds the
  first row is modelled alongside it (`Recalculation.RoundedTotals`, see "Findings").

## Model

| member | source | states |
|---|---|---|
| Prepare.WindowBounds | Datasources/Eneco/EnecoDataPrepare.py:67 | the lower bound (1970-01-01) is 0 ns and the upper bound (2099-12-31 00:00) is 4102358400 s, computed from the proleptic Gregorian calendar |
| Prepare.Windowed | Datasources/Eneco/EnecoDataPrepare.py:67 | every kept row has a timestamp inside the inclusive window; each in-window row keeps its multiplicity and all others are dropped |
| Prepare.SortByDate | Datasources/Eneco/EnecoDataPrepare.py:70 | the result is ascending by timestamp and is a permutation of its input (stability is not promised) |
| Prepare.TruncDiv | Datasources/Eneco/EnecoDataPrepare.py:73 | `astype('int64')` of a quotient truncates toward zero: for `n >= 0` the result `q` satisfies `q*d <= n < q*d + d`, and for `n < 0` it satisfies `q*d - d < n <= q*d` |
| Prepare.ToEpochSeconds | Datasources/Eneco/EnecoDataPrepare.py:73 | a timestamp date cell becomes the int64 whole number of seconds it contains, truncated toward zero; all other cells, and rows without a timestamp, are unchanged |
| Prepare.EpochSecondsSorted | Datasources/Eneco/EnecoDataPrepare.py:70-73 | converting in-window dates sorted by nanoseconds gives int64 seconds between 0 and the window end (4102358400 s) that are still ascending |
| Prepare.PrepareData | Datasources/Eneco/EnecoDataPrepare.py:63-78 | the output is a permutation of exactly the in-window input rows, each with its date turned into epoch seconds; it is sorted by those seconds, has the input's columns and one row per in-window input row; and its order is that of some ordering of the in-window rows by nanosecond timestamp, taken before the conversion, so rows within one second keep their sub-second order |
| Filters.ApplyFilter | Datasources/Eneco/EnecoDataPrepare.py:87-93 | one filter keeps an order-preserving subsequence: exactly the rows whose cell text matches the pattern when `equal`, or does not match when not `equal`, each with its multiplicity |
| Filters.FilterData | Datasources/Eneco/EnecoDataPrepare.py:82-95 | an empty filter list returns the table unchanged; otherwise the result is an order-preserving subsequence holding exactly the rows that pass every filter (AND), with their multiplicity, and the columns are unchanged |
| Filters.FilterDataAppend | Datasources/Eneco/EnecoDataPrepare.py:85-93 | filtering with `first + second` equals filtering with `first`, then filtering that result with `second` |
| Filters.FilterNarrows | Datasources/Eneco/EnecoDataPrepare.py:85-93 | appending one more filter never increases the row count |
| Filters.FilterPartition | Datasources/Eneco/EnecoDataPrepare.py:87-93 | the inclusive and exclusive forms of one filter split the rows: their multisets add up to the input, their lengths add up to its length, and both keep the input order |
| Rounding.Round3 | Datasources/Eneco/EnecoDataPrepare.py:111 | `round(x, 3)` is a whole number of thousandths, within 0.0005 of `x` |
| Rounding.Round3Monotone | Datasources/Eneco/EnecoDataPrepare.py:111 | rounding to three decimals preserves `<=` |
| Rounding.Round3OnGrid | Datasources/Eneco/EnecoDataPrepare.py:111 | rounding leaves a whole number of thousandths unchanged |
| Recalculation.Add | Datasources/Eneco/EnecoDataPrepare.py:111 | `round(reading + previous, 3)`: an integer exactly when both operands are int64; for every input within 0.0005 of the exact sum and on the 0.001 grid; exactly the sum when both operands are already on the grid |
| Recalculation.Zeroed | Datasources/Eneco/EnecoDataPrepare.py:106-107 | a NaN reading is overwritten with the float 0.0; any other number is kept as it is |
| Recalculation.Step | Datasources/Eneco/EnecoDataPrepare.py:106-111 | one pass of the loop body: the result is never NaN, and it is on the 0.001 grid whenever there is a previous row |
| Recalculation.Fold | Datasources/Eneco/EnecoDataPrepare.py:103-112 | the loop gives one value per row, none of them NaN; every value after the first is on the 0.001 grid, and so is the first when a previous total is given |
| Recalculation.FoldEquations | Datasources/Eneco/EnecoDataPrepare.py:104-112 | row 0 is computed from the starting state and every later row from the value stored in the row before it |
| Recalculation.Totals | Datasources/Eneco/EnecoDataPrepare.py:103-112 | the source's column: one number per reading, none NaN; the first is the first reading as read (0 if NaN), and every later one is on the 0.001 grid |
| Recalculation.TotalsEquations | Datasources/Eneco/EnecoDataPrepare.py:104-112 | the source's loop: the first output is the first reading (0 if NaN), and each later output is `round(reading or 0 + previous output, 3)` |
| Recalculation.TotalsNonDecreasingAfterFirst | Datasources/Eneco/EnecoDataPrepare.py:104-112 | with no negative delta, the source's column never goes down from the second row on, and the second row is at most 0.0005 below the first |
| Recalculation.TotalsNonDecreasing | Datasources/Eneco/EnecoDataPrepare.py:104-112 | with no negative delta and a first reading that has at most three decimals (or is NaN or an integer), the source's whole column is non-decreasing and non-negative |
| Recalculation.MissingReadingRepeatsTotal | Datasources/Eneco/EnecoDataPrepare.py:106-111 | in the source's column a NaN reading gives 0 on the first row and repeats the previous row's total on every row from the third on; on the second row it does so when the first reading has at most three decimals |
| Recalculation.RoundedTotalsEquations | Datasources/Eneco/EnecoDataPrepare.py:104-112 | the corrected loop: the same equations, except that the first row is also a delta added to 0 and rounded |
| Recalculation.FoldNonDecreasing | Datasources/Eneco/EnecoDataPrepare.py:104-112 | starting from a total on the grid, readings that are non-negative or NaN give a non-decreasing column that never drops below the start |
| Recalculation.RoundedTotalsNonDecreasing | Datasources/Eneco/EnecoDataPrepare.py:104-112 | with no negative delta the corrected column is non-decreasing (every pair of rows in order) and non-negative |
| Recalculation.MissingReadingRepeatsRoundedTotal | Datasources/Eneco/EnecoDataPrepare.py:106-111 | in the corrected column a NaN reading repeats the previous row's total on every row (0 on the first) |
| Recalculation.TotalsAgreeOnGrid | Datasources/Eneco/EnecoDataPrepare.py:104-112 | when the first reading is an integer, NaN or a whole number of thousandths, the source's fold and the corrected fold give the same column |
| Recalculation.RoundedTotalsAreRunningSums | Datasources/Eneco/EnecoDataPrepare.py:104-112 | when all readings are whole thousandths (or NaN), each corrected total is exactly the sum of the readings up to and including its row |
| Recalculation.TotalsMayDecrease | Datasources/Eneco/EnecoDataPrepare.py:106-111 | the source's fold turns `[0.1234, NaN]` into `[0.1234, 0.123]`: no negative delta, yet the column goes down and the NaN row does not repeat the previous total |
| RecalculateTable.RecalculateData | Datasources/Eneco/EnecoDataPrepare.py:99-114 | row count, columns, order and every non-value cell are unchanged; the value column's first cell is the first reading (0 if NaN), and each later cell is `round(own reading or 0 + the new value of the row before, 3)` |
| Output.Selection | Datasources/Eneco/EnecoDataPrepare.py:129 | `DataFrame.filter([date, value])` keeps exactly the requested labels that exist, each once, and in the requested order |
| Output.WriteExport | Datasources/Eneco/EnecoDataPrepare.py:125-132 | for the filtered rows, one line per row, with columns `[date, value]` (or `[value]`), holding each row's date and its reading or running total |
| Output.GenerateImportDataFile | Datasources/Eneco/EnecoDataPrepare.py:118-134 | skipped exactly when the value column is absent; otherwise one line per filtered row in filtered order, with columns `[date, value]` (or only `[value]` when the date column is absent or is the value column); the value is the filtered reading, or the source's running total when `recalculate` is set, and the date is the filtered row's date |
| Extensions.SplitExt | Datasources/Eneco/EnecoDataPrepare.py:167 | `root + ext` is the path; `ext` is the suffix from the last dot when the last path component has a non-dot character before that dot, and empty otherwise |
| Extensions.ExtensionUnique | Datasources/Eneco/EnecoDataPrepare.py:167 | a path has exactly one `splitext` extension |
| Extensions.CorrectFileExtensions | Datasources/Eneco/EnecoDataPrepare.py:164-170 | true exactly when every file name's extension equals the configured one (so an empty list gives true) |
| Pipeline.Upcast | Datasources/Eneco/EnecoDataPrepare.py:183 | in a column whose cells are all numbers and include a float or NaN, every cell becomes a float holding the same number (NaN stays NaN); every other column is unchanged |
| Pipeline.Concat | Datasources/Eneco/EnecoDataPrepare.py:183 | the columns are the union of all tables' columns; the row count is the sum of the tables' counts; row `i` of table `k` appears right after the rows of the tables before it, NaN-padded, with int64 cells of float64 columns turned into floats of the same value |
| Pipeline.GenerateAll | Datasources/Eneco/EnecoDataPrepare.py:189-190 | one export per output definition, in order, each exactly what `generateImportDataFile` produces for that definition from the base data (so named after it, and skipped exactly when its value column is absent) |
| Pipeline.GenerateImportDataFiles | Datasources/Eneco/EnecoDataPrepare.py:174-196 | no file names gives "no files found"; a file with the wrong extension gives "wrong extension"; otherwise (the configured extension being one `readInputFile` reads) export `i` is `generateImportDataFile` of definition `i` applied to the prepared concatenation of the loaded files, skipped exactly when no loaded file has that value column; independently of how ties between equal dates are broken, there is an ordering of the windowed rows by date, a permutation of them, from whose epoch-second table every export is generated |

## Findings

| source | as written | input that shows it | evidently intended | confidence | as-written member | corrected member |
|---|---|---|---|---|---|---|
| Datasources/Eneco/EnecoDataPrepare.py:106-111 | the first row keeps its reading unrounded, and only later rows are rounded to three decimals | readings `[0.1234, NaN]` are recalculated to `[0.1234, 0.123]` | with no negative delta the column never decreases, and a NaN row repeats the previous total | medium, not executed | Recalculation.TotalsMayDecrease | Recalculation.RoundedTotalsNonDecreasing |

The corrected fold (`Recalculation.RoundedTotals`) starts the running total at 0, so the
first row is rounded like every other. `Recalculation.TotalsAgreeOnGrid` shows that the two
folds agree whenever the first reading has at most three decimals. Export generation
(`RecalculateTable.RecalculateData`, `Output.GenerateImportDataFile`) follows the source and
uses `Recalculation.Totals`. `Recalculation.TotalsNonDecreasingAfterFirst` bounds the
discrepancy: the column drops by at most 0.0005, and only between its first two rows.

## Left out

- Loading the input files (`readInputFile`: CSV, Excel and JSON readers, decimal
  separators, header and footer rows, sheet and record paths). These are library I/O; the
  model starts from loaded tables, and the loader is a parameter of the driver.
- Parsing dates with `pd.to_datetime`, and dropping the time zone (lines 156-158). These
  are library calls. An empty date becomes NaT (`Num(None)`). A date that does not match
  the format makes `pd.to_datetime` raise, so the model starts from tables that loaded
  successfully. `Pipeline.LoadsDated` requires every date cell to be a timestamp in
  nanoseconds or NaT.
- `exec(dataPreparation)` at line 76. It runs arbitrary configured code, which cannot be
  modelled. The model treats it as the identity, which is what the shipped empty
  configuration does.
- `glob.glob`, `to_csv`, the console messages, the confirmation prompt and the argv
  handling (lines 132, 176, 200-211). These are I/O. The file names found are a
  parameter, and an export is the list of columns and cells that would be written.
- The regular-expression engine and pandas' text rendering of cells. Both sit behind the
  abstract `Matcher` (`render`, `contains`).
- IEEE-754 floating point. Values are exact reals, so `round(x, 3)` has no
  binary-representation error. The division at line 73 is exact integer division,
  truncated toward zero. A float quotient could round up to the next second for
  timestamps up to a few hundred nanoseconds short of a whole second. Dates parsed with a day format are
  always whole seconds, so this does not arise in practice.
- int64 overflow. Integers are unbounded. In-window timestamps fit in int64, and
  accumulated integer readings are not bounded.
- Sharing the base frame. With an empty filter list `filterData` returns the base frame
  itself, and `recalculateData` then overwrites its value column in place. A later output
  reading the same column would see totals instead of readings. The model is pure and
  does not reproduce this; every output is computed from the unchanged base data.
- Pipeline.GenerateImportDataFiles: its first description of the exports fixes how rows
  with equal dates are ordered, namely in input order, because `BaseData` uses the model's
  insertion sort. pandas' quicksort leaves that order unspecified. Only the second
  description, which holds for some date ordering of the windowed rows, is a promise of
  the source.
- Pipeline.Concat: a column's float64 upcast is decided from its cells alone. A table with
  no rows that lacks the column adds no NaN pad here, so it does not upcast the column;
  pandas treats such empty entries differently from version to version. Columns that mix
  numbers with strings stay as they are, as in an object column.
- Module-level configuration (lines 24-56). It is passed as parameters (`Pipeline.Config`,
  the date column name). The window bounds are constants, as in the code.
- `os.path.splitext` on Windows paths (backslash separators, drive letters). Only the
  POSIX rules are modelled.
- `DataFrame.filter` with a label asked for twice (date column equal to value column).
  The model keeps the column once, which is what current pandas' label intersection does.
- Filters on a missing column, recalculation over a non-numeric value column, and a
  configured extension other than `.csv`, `.xlsx`, `.xls` or `.json` (which
  `readInputFile` rejects at lines 153-154 once a file has to be loaded). The source raises
  `KeyError`, `TypeError` or `Exception` and stops, so the model makes them preconditions
  (`Filters.ColumnsExist`, `Output.CanGenerate`, `Pipeline.CanRun` with
  `Pipeline.SupportedExtensions`).
