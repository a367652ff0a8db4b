# Life-expectancy cleaning, modelled in Dafny

This project models the data-cleaning stage of `life_expectancy/cleaning.py`.
That stage takes the raw Eurostat life-expectancy table and turns it into a tidy
long table for one region. The table is wide: a composite key column
`unit,sex,age,geo\time` followed by one column per year. The pipeline,
`clean_data`, runs four steps in order:

1. `unpivot_table` melts the year columns into `year`/`value` pairs. It then
   splits the key into `unit`, `sex`, `age` and `region`.
2. `clean_year` turns each year heading into an integer with
   `int(heading.strip().replace(" ", ""))`. It reads each value cell as the first
   number the regular expression `\d+(?:\.\d+)?` finds in it (`extract_decimal_value`),
   or null when there is none.
3. `drop_null_values` drops the rows that are null in a given column.
4. `filter_region` keeps the rows of one region.

`clean_data` passes its own arguments on to the last two steps: the column
defaults to `value` and the region to `PT`.

The modules follow that structure:

- `Results` (`results.dfy`): `Option`, `Result` and `TryMap`, which maps a
  fallible function over a sequence and stops at the first failure.
- `Seqs` (`seqs.dfy`): order-preserving filtering (a boolean row mask),
  subsequences and column-major flattening.
- `Text` (`text.dfy`): the Python string operations used, namely `str.strip()`,
  `str.replace(" ", "")`, `str.split(",")` and `int()` on a `str`, with
  `str(n)` as the partner of `int()`.
- `Decimals` (`decimals.dfy`): `extract_decimal_value`. It has a scanner for
  the first match of `\d+(?:\.\d+)?` and a declarative definition of "first
  match" (leftmost start, then longest) that the scanner is proved against.
- `Cleaning` (`cleaning.dfy`): the data model (wide table, long row, cleaned
  record) and the four steps and `clean_data`.
- `AsWritten` (`aswritten.dfy`): `unpivot_table` exactly as pandas executes the
  code. This is where it differs from `Cleaning.Unpivot` (see Findings).
- `Scenarios` (`scenarios.dfy`): a two-row, two-year table taken through
  `clean_data` end to end.

Conventions used throughout:

- Failures are `Err` values of `Cleaning.Error`:
  - `ValueError` from `int()` becomes `BadYear`.
  - pandas' `KeyError` for an unknown column becomes `UnknownColumn`.
  - pandas' column-count mismatch becomes `SplitWidth`. Only the as-written
    reshaping, `AsWritten.UnpivotAsWritten`, raises it.
  - `KeyFieldCount` is the error of the corrected reshaping,
    `Cleaning.Unpivot`, for a key that does not have four fields. It has no
    counterpart in Python: pandas pads a short key with nulls (see Findings).
- `Cleaning.CleanData` is built on the corrected reshaping `Cleaning.Unpivot`.
- Cells are `Option<string>`; `None` stands for an empty (NaN) cell.
- Numbers are exact `real`s.
- Sequences keep the row order that pandas keeps. `melt` lists the whole
  first year column, then the second, and so on. So the cell in row `i`,
  year column `j` lands at position `j * rows + i`.

## Model

| member | source | states |
|---|---|---|
| Decimals.ExtractDecimalValue | life_expectancy/cleaning.py:76-91 | null exactly when the cell is null or has no digit; otherwise a number that is never negative |
| Decimals.ExtractDecimalValueIsFirstMatch | life_expectancy/cleaning.py:86-90 | null exactly when `\d+(?:\.\d+)?` matches nowhere in the cell; otherwise the value of the decimal spelled by the first match that `findall` reports |
| Decimals.ExtractMatchIsFirstMatch | life_expectancy/cleaning.py:87-89 | the scanner returns the leftmost match and, at that start, the longest one; it returns nothing exactly when no substring matches |
| Decimals.Value | life_expectancy/cleaning.py:90 | `float()` of a match is non-negative, and its integer part is the number the integer digits spell |
| Decimals.ExtractAnnotated | life_expectancy/cleaning.py:86-90 | an annotated cell `"78.5 b"` reads as 78.5 |
| Decimals.ExtractInteger | life_expectancy/cleaning.py:86-90 | `"100"` reads as 100 |
| Decimals.ExtractDotWithoutFraction | life_expectancy/cleaning.py:87-90 | a dot with no digit after it is not part of the match: `"12.x"` reads as 12 |
| Decimals.ExtractMissing | life_expectancy/cleaning.py:86-91 | the missing-data marker `:` and a null cell read as null |
| Text.TrimStartSpec | life_expectancy/cleaning.py:24 | the leading-whitespace trim removes a whitespace prefix and stops at the first non-whitespace character |
| Text.TrimEndSpec | life_expectancy/cleaning.py:24 | the trailing-whitespace trim removes a whitespace suffix and stops at the last non-whitespace character |
| Text.StripSpec | life_expectancy/cleaning.py:24 | `strip()` returns a contiguous slice of its argument with only whitespace on either side, and the slice neither starts nor ends with whitespace |
| Text.StripPadded | life_expectancy/cleaning.py:24 | `strip()` of a text padded with whitespace gives the text back when its ends are not whitespace |
| Text.RemoveSpacesIsFilter | life_expectancy/cleaning.py:24 | `replace(" ", "")` deletes exactly the spaces: no space is left, every other character keeps its count, and the order is kept |
| Text.ParseFormat | life_expectancy/cleaning.py:24 | `int(str(n)) == n` for every integer |
| Text.ParseYearStripsOnce | life_expectancy/cleaning.py:24 | the text `int()` receives in `clean_year` has no whitespace at either end, so the model's whitespace cut inside `int()` changes nothing there |
| Text.ParseYearPadded | life_expectancy/cleaning.py:23-25 | a year heading that is an integer's spelling padded with whitespace normalises to that integer |
| Text.SplitPieces | life_expectancy/cleaning.py:47 | no piece of `split(",")` holds a comma, and joining the pieces with commas rebuilds the key |
| Text.SplitJoin | life_expectancy/cleaning.py:47 | splitting comma-joined comma-free fields gives the fields back |
| Text.SplitNoSeparator | life_expectancy/cleaning.py:47 | a text without a comma splits into itself alone |
| Text.SplitAfterPiece | life_expectancy/cleaning.py:47 | a leading comma-free piece and a comma split off as the first field |
| Cleaning.KeyOfFields | life_expectancy/cleaning.py:47-48 | a key written from four comma-free fields splits back into exactly those four fields, in order |
| Cleaning.MeltLength | life_expectancy/cleaning.py:44-46 | `melt` yields one row per (row, year column) pair |
| Cleaning.MeltIndex | life_expectancy/cleaning.py:44-46 | the cell in row `i`, year column `j` sits at offset `i` of the `j`-th block of `rows` melted rows, with the key fields, the heading and the raw cell |
| Cleaning.MeltPosition | life_expectancy/cleaning.py:44-46 | the cell in row `i`, year column `j` is the melted row at position `j * rows + i` |
| Cleaning.MeltCover | life_expectancy/cleaning.py:44-46 | every melted row comes from some cell of the wide table |
| Cleaning.MeltLayout | life_expectancy/cleaning.py:44-46 | length, position of every cell and coverage of the melted table, together |
| Cleaning.Unpivot | life_expectancy/cleaning.py:44-54 | succeeds exactly when every key has four fields; otherwise it names the first bad key and its field count; on success, the melted table with the layout of `MeltLayout` |
| Cleaning.CleanRecord | life_expectancy/cleaning.py:23-27 | one row is cleaned exactly when its heading parses: key fields copied, year parsed, value extracted; otherwise the error names the heading |
| Cleaning.CleanYearOk | life_expectancy/cleaning.py:23-25 | `clean_year` succeeds exactly when every row's year heading parses |
| Cleaning.CleanYearFirstError | life_expectancy/cleaning.py:23-25 | a failing `clean_year` reports the first heading `int()` rejects |
| Cleaning.CleanYearRow | life_expectancy/cleaning.py:23-27 | on success, record `k` is row `k` cleaned |
| Cleaning.CleanYearValues | life_expectancy/cleaning.py:27-28 | every cleaned value is null or a non-negative number |
| Cleaning.DropNullValues | life_expectancy/cleaning.py:127-139 | succeeds exactly for a column of the cleaned table, and keeps exactly the rows not null in it; an unknown column is an error naming it |
| Cleaning.DropNullValuesCounts | life_expectancy/cleaning.py:138 | every row not null in the column is kept as often as it occurs, every null row is dropped, and the order is kept |
| Cleaning.DropNullValuesRowwise | life_expectancy/cleaning.py:138 | dropping nulls is a row mask: it splits over concatenation and keeps a single row exactly when it is not null |
| Cleaning.FilterRegion | life_expectancy/cleaning.py:94-106 | keeps exactly the rows whose region equals the argument |
| Cleaning.FilterRegionCounts | life_expectancy/cleaning.py:105 | every row of the region is kept as often as it occurs, every other row is dropped, and the order is kept |
| Cleaning.FilterRegionRowwise | life_expectancy/cleaning.py:105 | the region filter is a row mask: it splits over concatenation and keeps a single row exactly when its region matches |
| Cleaning.FilterRegionIdempotent | life_expectancy/cleaning.py:105 | filtering twice by the same region equals filtering once |
| Cleaning.FilterRegionRegions | life_expectancy/cleaning.py:105 | the regions left are exactly the one asked for, or none when no row has it |
| Cleaning.DropNullFilterRegionCommute | life_expectancy/cleaning.py:157-158 | dropping nulls and filtering by region can be done in either order |
| Cleaning.MeltedYearParses | life_expectancy/cleaning.py:155-156 | each melted row's year is a heading of the wide table, so it parses when all headings do |
| Cleaning.CleanYearOfMeltOk | life_expectancy/cleaning.py:155-156 | `clean_year` accepts the melted table when every year heading parses |
| Cleaning.CleanYearOfMeltFails | life_expectancy/cleaning.py:155-156 | a heading that does not parse makes `clean_year` fail once the table has a row |
| Cleaning.CleanYearOfMelt | life_expectancy/cleaning.py:155-156 | on a table with well-formed keys, `clean_year` of the melt succeeds exactly when the table has no rows or all headings parse |
| Cleaning.CleanData | life_expectancy/cleaning.py:142-160 | succeeds exactly when keys are well formed, headings parse (if there are rows) and the null column exists; every row kept has the requested region, is not null in that column, and has a non-negative value when the column is `value` |
| Cleaning.CleanedRowIsObservation | life_expectancy/cleaning.py:155-156 | every cleaned record is the cleaned form of some cell of the wide table |
| Cleaning.ObservationIsCleaned | life_expectancy/cleaning.py:155-156 | the cleaned form of every cell is among the cleaned records |
| Cleaning.CleanedCells | life_expectancy/cleaning.py:155-156 | the cleaned table holds exactly the cleaned forms of the wide table's cells |
| Cleaning.CleanDataObservations | life_expectancy/cleaning.py:155-160 | given four-field keys, parsing headings (when there are rows) and a known column, `clean_data` succeeds and returns exactly the cleaned cells that have the requested region and are not null in the requested column |
| AsWritten.MaxFieldCount | life_expectancy/cleaning.py:47 | the width of `str.split(",", expand=True)`: no key has more fields, and some key has that many |
| AsWritten.UnpivotAsWritten | life_expectancy/cleaning.py:44-54 | as written, the reshaping succeeds exactly when the split is four columns wide; otherwise the error is that width |
| AsWritten.WellFormedSplitColumns | life_expectancy/cleaning.py:47-48 | when every key has four fields and something melts, the split is four columns wide |
| AsWritten.AsWrittenAgreesWithUnpivot | life_expectancy/cleaning.py:44-54 | when every key has four fields and something melts, the as-written and corrected reshapings give the same rows |
| AsWritten.EmptyMeltFailsAsWritten | life_expectancy/cleaning.py:47-48 | a table that melts to nothing fails as written with width 0; the corrected reshaping returns the empty table |
| AsWritten.ShortKeySplitColumns | life_expectancy/cleaning.py:47 | a three-field key next to a four-field key still splits four columns wide |
| AsWritten.ShortKeyRejected | life_expectancy/cleaning.py:47-48 | the corrected reshaping rejects the three-field key |
| AsWritten.ShortKeyPassesAsWritten | life_expectancy/cleaning.py:47-48 | as written, the three-field key passes: its region is null and its region code sits in `age` |
| Scenarios.Year2019 | life_expectancy/cleaning.py:24 | the heading `"2019 "` parses to 2019 |
| Scenarios.AnnotatedValue | life_expectancy/cleaning.py:86-90 | the cell `"80.1 b"` reads as 80.1 |
| Scenarios.SampleMelt | life_expectancy/cleaning.py:44-46 | the sample melts to its four long rows, the 2018 column first |
| Scenarios.SampleCleaned | life_expectancy/cleaning.py:23-28 | the sample's four rows cleaned, with years 2018 and 2019 |
| Scenarios.KeepFirstOfFour | life_expectancy/cleaning.py:157-158 | of four records, dropping the one null record and filtering out the two of another region leaves the first |
| Scenarios.SamplePortugal | life_expectancy/cleaning.py:142-160 | `clean_data` with its defaults keeps only the Portuguese 2018 observation, 80.1 |

## Left out

- `load_data`, `save_data`, `main` and the command-line parsing: they read and
  write files and parse arguments. The table is a parameter and the result is
  returned.
- Floating point: values are exact reals. `float()` rounding to binary64 and
  overflow to `inf` are not modelled.
- `pd.to_numeric(..., errors="coerce")` (line 28) is not a separate step.
  After `extract_decimal_value` every value is a float or null, so the step
  only turns null into NaN. Both count as null for `isna`, and the model keeps
  `None`.
- Unicode digits: Python's `\d` and `int()` also accept non-ASCII decimal
  digits. The model accepts only `0`-`9`.
- Non-string cells: pandas may read a cell that is already numeric as a float.
  `extract_decimal_value` would then see `str()` of that float. The model takes
  every cell as text.
- A null key cell, and a table without the key column (pandas' `KeyError`):
  the wide table is structural, with the key in a field of each row.
- Null values in columns other than `value`: key fields and years are never
  null in the corrected model. `DropNullValues` on them keeps every row.
- The pandas row index: the filtered frames keep their original index labels.
  The model has sequences without labels.
- `clean_year` mutates its argument frame in place. The model is a pure
  function.
- Cleaning.CleanData: it runs on the corrected reshaping, so it differs from
  `clean_data` on the two Findings inputs. On a table that melts to no rows it
  returns the empty table, where `clean_data` raises at line 48. On a key with
  three fields beside four-field keys it returns `KeyFieldCount`, where
  `clean_data` keeps going and the short-key row drops out at the region
  filter, because its region is null.
- Text.ParseInt: CPython refuses to convert a literal of more than 4300 digits
  and raises `ValueError`. The model has no such limit. So a year heading that
  long parses in `Cleaning.CleanRecord` but makes `clean_year` raise. For the
  same reason `Text.ParseFormat` (`int(str(n)) == n`) holds in CPython only
  for integers below that limit. The model uses unbounded integers.
- Text.ParseInt: outside `clean_year`, it does not follow CPython exactly. It
  cuts every `str.isspace()` character around the literal. CPython's `int()`
  cuts only ` \t\n\v\f\r` around an ASCII literal, so `int("\x1c5")`
  raises but `ParseInt` reads 5. In `clean_year` the text is already stripped
  (`Text.ParseYearStripsOnce`), so the two agree there.
- Cleaning.CleanYear: its own contract states only the length of the result.
  What the records hold, when it succeeds and which error it reports are stated
  by `CleanYearRow`, `CleanYearOk` and `CleanYearFirstError`.
- `life_expectancy/tests/test_cleaning.py` is not part of this model. It calls
  `clean_data` without the table argument and compares with a saved CSV file.

## Findings

| source | as written | input that shows it | evidently intended | confidence | as-written member | corrected member |
|---|---|---|---|---|---|---|
| life_expectancy/cleaning.py:47-48 | `str.split(",", expand=True)` makes as many columns as the longest key has fields and pads shorter keys with null, so a key with three fields beside one with four is accepted | keys `YR,F,Y65,PT` and `YR,F,PT`: the second row gets `age = "PT"` and a null region | a key without exactly four fields is rejected | not executed | AsWritten.ShortKeyPassesAsWritten | Cleaning.Unpivot |
| life_expectancy/cleaning.py:47-48 | a table that melts to no rows (no data rows or no year columns) splits into zero columns, so assigning four column names fails | a wide table with only the key column, or with no data rows | an empty long table | not executed | AsWritten.EmptyMeltFailsAsWritten | Cleaning.Unpivot |
