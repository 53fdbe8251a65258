# Population data pipeline — a Dafny model of the cleaning and aggregation steps

The pipeline reads a CSV of per-state population figures, cleans it, sums the
`2020_census` column and writes a one-cell summary. This project models its two
in-memory steps as pure functions over a table value and proves what they
promise:

- `clean_data` drops every row that has a missing cell (`dropna()`) and rewrites
  every header as `name.strip().lower().replace(' ', '_')`;
- `process_data` sums the `2020_census` column and returns a table with one
  column, `total_population`, and one row.

Modules:

- `Wrappers` (`wrappers.dfy`): `Option` (a cell that may be missing) and
  `Result` (a step that may raise).
- `Headers` (`headers.dfy`): Python's `str.strip()`, `str.lower()` and
  `str.replace(' ', '_')`, their composition `Normalize`, and its properties
  (trimmed, lower-case, no space, idempotent).
- `Pipeline` (`pipeline.dfy`): the table (`columns: seq<string>`,
  `rows: seq<seq<Option<Cell>>>`), `CleanData`, `ProcessData` and the lemmas
  about them.
- `Scenarios` (`scenarios.dfy`): the sample frame of the unit tests and
  what the model proves about it.

Choices the model makes explicit:

- A missing value is a `None` cell; pandas' NaN, None and NaT all map to it.
  An empty string in memory is a present `Text("")` cell and is kept, as
  `dropna()` keeps it.
- Whitespace for `strip()` is exactly the set Python's `str.isspace` accepts
  (U+0009–U+000D, U+001C–U+0020, U+0085, U+00A0, U+1680, U+2000–U+200A,
  U+2028, U+2029, U+202F, U+205F, U+3000). `replace(' ', '_')` replaces only
  U+0020, so an interior tab survives normalisation (`Headers.InteriorTabKept`).
- The census column is numpy `int64`; the total is the exact sum reduced into
  the signed 64-bit range, as numpy's int64 reduction wraps. Missing census
  cells are skipped, as `Series.sum()` does with its default `skipna=True`.
- Column lookup: no header equal to `2020_census` is `ColumnNotFound` (the
  `KeyError` of `df['2020_census']`); more than one is `DuplicateColumn`;
  a present census cell that is not an integer is `NotNumeric`. Cleaning can
  itself create the duplicate: `"2020 Census"` and `"2020_census"` both
  normalise to `2020_census` (`Scenarios.CollidingCensusHeaders`).

## Model

| member | source | states |
|---|---|---|
| `Headers.IsWhitespace` | population_pipeline.py:17 | the characters `strip()` removes: exactly Python's `str.isspace` set, which holds space, tab and newline and no upper-case letter and not `_` |
| `Headers.IsUpper` | population_pipeline.py:17 | the upper-case letters whose `lower()` the model defines: ASCII `A`-`Z` and the Latin-1 letters U+00C0-U+00DE except U+00D7 |
| `Headers.TrimStart` | population_pipeline.py:17 | the leading half of `strip()`: the result is a suffix of the input, everything removed is whitespace, and it does not start with whitespace |
| `Headers.TrimEnd` | population_pipeline.py:17 | the trailing half of `strip()`: the result is a prefix, everything removed is whitespace, and it does not end with whitespace |
| `Headers.TrimEndKeepsStart` | population_pipeline.py:17 | trimming the end of a string that does not start with whitespace leaves it trimmed at both ends |
| `Headers.Strip` | population_pipeline.py:17 | `strip()` never lengthens a header and leaves neither leading nor trailing whitespace |
| `Headers.WhitespaceAroundParts` | population_pipeline.py:17 | cutting whitespace off the front and then the back of a string leaves an infix with only whitespace around it |
| `Headers.StripIsInfix` | population_pipeline.py:17 | `strip()` returns a contiguous part of its input with only whitespace removed on either side |
| `Headers.StripTrimmed` | population_pipeline.py:17 | `strip()` is the identity on a string with no whitespace at either end |
| `Headers.LowerChar` | population_pipeline.py:17 | `lower()` on a character: an upper-case letter becomes the lower-case letter 32 code points above it, which `UpperChar` maps back; other characters are unchanged; whitespace-ness is preserved |
| `Headers.UpperChar` | population_pipeline.py:17 | the reference inverse of `LowerChar`: a modelled lower-case letter becomes the upper-case letter 32 code points below it, anything else is unchanged |
| `Headers.CaseRoundTrip` | population_pipeline.py:17 | lower-casing then upper-casing an upper-case letter, and the reverse on a lower-case letter, gives the letter back |
| `Headers.Lower` | population_pipeline.py:17 | `lower()` keeps the length, turns each upper-case letter into the lower-case letter whose upper-case form it is, leaves every other character in place and keeps a trimmed string trimmed |
| `Headers.LowerFixed` | population_pipeline.py:17 | `lower()` is the identity on a string with no upper-case letter |
| `Headers.ReplaceSpaces` | population_pipeline.py:17 | `replace(' ', '_')` keeps the length, writes `_` at every space and changes no other character, so no space is left and lower-case and trimmed strings stay so |
| `Headers.ReplaceSpacesFixed` | population_pipeline.py:17 | `replace(' ', '_')` is the identity on a string with no space |
| `Headers.Normalize` | population_pipeline.py:17 | a normalised header is trimmed, lower-case and free of spaces, and is no longer than the input |
| `Headers.NormalizeAll` | population_pipeline.py:17 | the header comprehension keeps the number of headers and normalises each one |
| `Headers.NormalizedFixed` | population_pipeline.py:17 | normalising an already normalised header changes nothing |
| `Headers.NormalizeIdempotent` | population_pipeline.py:17 | header normalisation is idempotent |
| `Headers.NormalizeAllIdempotent` | population_pipeline.py:17 | rewriting already rewritten headers changes nothing |
| `Headers.NormalizedIffFixed` | population_pipeline.py:17 | a header is in normal form exactly when normalising it is a no-op |
| `Headers.TrailingSpaceRemoved` | population_pipeline.py:17 | a normalised header with one trailing space cleans back to itself |
| `Headers.InteriorTabKept` | population_pipeline.py:17 | only U+0020 becomes `_`: the header `"a\tb"` keeps its interior tab |
| `Headers.LowerCensusHeader` | population_pipeline.py:17 | `lower()` turns `"2020 Census"` into `"2020 census"` |
| `Headers.ReplaceCensusHeader` | population_pipeline.py:17 | `replace(' ', '_')` turns `"2020 census"` into `"2020_census"` |
| `Headers.NormalizeSpacedCensus` | population_pipeline.py:17 | `"2020 Census"` normalises to `"2020_census"` |
| `Headers.CensusHeadersCollide` | population_pipeline.py:17 | `"2020 Census"` and `"2020_census"` normalise to the same header |
| `Pipeline.Complete` | population_pipeline.py:14 | the row test of `dropna()`: a row is kept exactly when every one of its cells is present |
| `Pipeline.DropMissing` | population_pipeline.py:14 | `dropna()` never adds rows, and every kept row is an input row with no missing cell |
| `Pipeline.CompleteFrom` | population_pipeline.py:14 | the increasing positions, from a start index, of exactly the rows with no missing cell |
| `Pipeline.CompleteIndices` | population_pipeline.py:14 | the increasing positions of exactly the complete rows |
| `Pipeline.MissingRows` | population_pipeline.py:14 | every dropped row is an input row with a missing cell, and the kept rows and the dropped rows together are the input rows, as a multiset |
| `Pipeline.CountMissing` | population_pipeline.py:14 | the number of rows with a missing cell is at most the row count |
| `Pipeline.Select` | population_pipeline.py:14 | picking rows by a list of positions yields, at each place, the row at that position |
| `Pipeline.DropMissingFrom` | population_pipeline.py:14 | from any start position, `dropna()` keeps the rows at the complete positions, in order |
| `Pipeline.DropMissingSelects` | population_pipeline.py:14 | `dropna()` keeps exactly the complete rows, unchanged, in their original relative order |
| `Pipeline.DropMissingCount` | population_pipeline.py:14 | kept rows = input rows minus rows with a missing cell; the dropped rows number exactly those |
| `Pipeline.DropMissingComplete` | population_pipeline.py:14 | a table without missing cells loses no row |
| `Pipeline.DropMissingIdempotent` | population_pipeline.py:14 | dropping incomplete rows twice equals dropping them once |
| `Pipeline.DropIncomplete` | population_pipeline.py:14 | the row filter keeps the headers, never grows and keeps the table rectangular |
| `Pipeline.RenameColumns` | population_pipeline.py:17 | the header rewrite keeps the rows and the column count and normalises every header |
| `Pipeline.CleanData` | population_pipeline.py:11-19 | same column count, every header normalised, no more rows than before, every kept row an input row without missing cells, rectangularity kept |
| `Pipeline.CleanDataHeaders` | population_pipeline.py:17 | the header at each position is the normalised input header at that position |
| `Pipeline.CleanDataCommutes` | population_pipeline.py:14-17 | which rows are dropped does not depend on the headers; filtering and renaming commute |
| `Pipeline.CleanDataIdempotent` | population_pipeline.py:11-19 | cleaning a cleaned table changes nothing |
| `Pipeline.IndexOf` | population_pipeline.py:24 | the first position holding the label |
| `Pipeline.Lookup` | population_pipeline.py:24 | `df['2020_census']` finds the one position holding the label; a label that is absent is exactly the not-found error |
| `Pipeline.LookupFinds` | population_pipeline.py:24 | a label held at exactly one position is found there |
| `Pipeline.LookupAmbiguous` | population_pipeline.py:24 | a label held at two positions gives the duplicate-column error |
| `Pipeline.NumericAt` | population_pipeline.py:24 | the condition under which `sum()` on column `c` does not raise in the model: every cell of the column is missing or an integer |
| `Pipeline.CellValue` | population_pipeline.py:24 | what one cell adds to `sum()`: its integer value, or 0 for a missing cell (`skipna=True`); a `Text` or `Other` cell also adds 0. Where `NumericAt` fails, `ProcessData` reports an error and no sum is used; in `CleanThenProcessTotal`, such a cell in a dropped row adds 0 to both the raw sum and the dropped rows' sum, so it cancels |
| `Pipeline.ColumnSum` | population_pipeline.py:24 | the exact, unwrapped sum of the cell values of column `c`: 0 when every cell adds 0, and within `rows` times the int64 range |
| `Pipeline.Wrap64` | population_pipeline.py:24 | the int64 total agrees with the exact sum modulo 2^64, and equals it when the exact sum fits |
| `Pipeline.Summary` | population_pipeline.py:27 | the summary frame has the single column `total_population` and one row holding the total |
| `Pipeline.ProcessData` | population_pipeline.py:21-29 | on success one row and one column `total_population` holding an integer; fails with not-found exactly when no `2020_census` header exists; succeeds exactly when the label is unique and its cells are integers or missing |
| `Pipeline.ColumnSumAppend` | population_pipeline.py:24 | the column sum of a concatenation is the sum of the parts |
| `Pipeline.ColumnSumSplit` | population_pipeline.py:14-24 | the raw column sum is the sum over the kept rows plus the sum over the dropped rows |
| `Pipeline.ProcessDataTotal` | population_pipeline.py:24-27 | the reported total is the wrapped sum of the census column; an empty table totals 0 |
| `Pipeline.CleanThenProcess` | population_pipeline.py:47-51 | cleaning then processing fails with not-found exactly when no input header normalises to `2020_census` |
| `Pipeline.CleanThenProcessTotal` | population_pipeline.py:47-51 | after cleaning, the total is the raw census sum minus the census values of the dropped rows |
| `Scenarios.CleanSampleRows` | test.py:32-43 | the sample with one missing rank cleans to its other two rows, unchanged |
| `Scenarios.CleanSampleHeaders` | test.py:45-50 | the sample headers with trailing spaces clean to `rank`, `state`, `state_code`, `2020_census`, `percent_of_total` |
| `Scenarios.SampleWellFormed` | test.py:10-16 | the sample frame has five cells in every row |
| `Scenarios.SampleCensusSum` | test.py:52-59 | the sample's census cells are integers and add up to 90221915 |
| `Scenarios.ProcessSample` | test.py:52-59 | the sample's total is 39538223 + 29145505 + 21538187 = 90221915 |
| `Scenarios.MissingCensusColumn` | population_pipeline.py:24 | a table without a census header fails with the not-found error |
| `Scenarios.CollidingCensusHeaders` | population_pipeline.py:17-24 | headers `"2020 Census"` and `"2020_census"` make the lookup after cleaning fail as ambiguous |

## Left out

- `load_data` (population_pipeline.py:5-9): the existence check and `pd.read_csv`, including its type inference and its parsing of empty fields and `NA` strings as missing, are file I/O and a foreign library.
- `save_data` (population_pipeline.py:31-37): directory creation, CSV serialisation and the confirmation message are file-system side effects.
- `main` and the command-line entry point (population_pipeline.py:39-68): progress messages, argument parsing and the catch-all handler that prints the error; only the in-memory sequence `clean_data` then `process_data` is modelled (`Pipeline.CleanThenProcess`).
- Floating point: the `percent_of_total` column and any other float is an opaque `Other` cell. A census column that held a missing value is float64 in pandas; the model keeps its cells as integers and skips the missing ones.
- `Headers.LowerChar`: case mapping is modelled for ASCII and Latin-1 upper-case letters only; any other character, such as `Σ`, is left unchanged, where Python's `lower()` maps the rest of Unicode (`σ`).
- `Headers.Lower`: inherits that limit of `LowerChar`, and leaves out the Unicode mappings that change the length of a string.
- `Pipeline.Lookup`: when two headers equal `2020_census`, pandas selects both columns and builds a summary whose cell is a whole Series rather than a number; the model reports `DuplicateColumn` instead.
- `Pipeline.ProcessData`: a census column holding strings makes pandas either raise a `TypeError` or concatenate the strings, and a census column of floats (`Other` cells) is summed by pandas as a float; the model reports `NotNumeric` in all these cases.
- `Pipeline.CleanData`: headers are strings in the model; a non-string column label makes `col.strip()` (population_pipeline.py:17) raise `AttributeError`, an error path of `clean_data` the model does not represent.
