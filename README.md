# CPIData: yearly CPI averages and price adjustment

This project models the `CPIData` class of `api.py`, a small utility that
reads the FRED CPIAUCSL consumer price index text file and does two things:

- **Series loader** (`load_from_file`). It skips the lines before the
  `DATE ` header line. It reads one `(year, value)` observation per data
  line. The year is the integer before the first `-` of the date field, and
  the value is the second whitespace-separated field. It records
  `first_year` and `last_year` in stream order. It reduces the
  observations to one mean per year with a run-length aggregation: a
  year's mean is stored when the year changes, and the last year is
  flushed at the end of the stream unless it is already a key.
- **Price adjuster** (`get_adjusted_price`). It converts a price from one
  year's purchasing power to another's: `price / cpi[year] * cpi[current_year]`.
  `current_year` is capped at 2013, and `year` is clamped into
  `[first_year, last_year]`.

Modules:

- `Wrappers` holds `Option`, `Result` and `Outcome` (pass, or an error).
- `Text` holds the string operations one line goes through: `str.split()`,
  `startswith`, the text before the first `-`, and `int()` and `float()`
  on a single token.
- `Series` holds the aggregation, stated on parsed observations:
  - `Runs` cuts the stream into maximal same-year blocks;
  - `ClosedOut` is the table while the stream is still being read;
  - `Flushed` is the table once the stream ends;
  - `AverageOfRuns` is `Flushed` on an empty table;
  - `NextFirstYear` and `NextLastYear` compute the bounds.

  It also holds the lemmas about keys, values and bounds.
- `CpiData` holds line parsing and the class `CPIData`:
  - the fields `yearCpi`, `firstYear` and `lastYear`;
  - the imperative `LoadFromFile`, proved against the `Series` functions;
  - the pure `GetAdjustedPrice`, with its clamping lemmas.

  It also holds the as-written models of the defects listed under
  Findings.

Prices and CPI values are `real`, so means and ratios are exact. The
adjuster's failures are values of the result type instead of exceptions:

- `NotLoaded` is the error from comparing with an unset bound.
- `MissingYear` is the `KeyError`.
- `ZeroCpi` is the `ZeroDivisionError`.

The loader's failures are:

- `MissingHeader`;
- `MissingField` (the `IndexError` of `data[0]` or `data[1]`);
- `BadYear` and `BadValue` (the `ValueError` of `int()` and `float()`).

The loader works from whatever state the object is in, as the Python
method does. On a fresh object, a complete load leaves the table equal to
`AverageOfRuns` of the parsed observations. A malformed line stops the load
with the close-outs made so far kept and no final flush, as in `api.py`.

The model keeps these behaviours of `api.py` as they are:

- The bounds are the first and last years in stream order, not the least
  and greatest keys (`UnsortedLastYearIsNotMax`).
- A year whose observations are not contiguous keeps the mean of its
  latest closed-out run, not the mean of all its values
  (`StoredValueIsLatestClosedRun`).
- The ceiling is the literal 2013 (`CeilingYear`), not a configurable
  value.
- A failed load leaves partial state behind instead of discarding it.

## Model

| member | source | states |
|---|---|---|
| CpiData.CPIData.constructor | api.py:12-22 | A new object has an empty table and both bounds unset. |
| CpiData.CPIData.LoadFromFile | api.py:63-104 | Missing header: fails with `MissingHeader` and changes nothing. Otherwise the data lines are the lines after the first header line, and the method does four things. It sets `first_year` only if it was unset, to the first observation's year. It sets `last_year` to the last observation's year. With all lines well formed, it passes and the table is the prior table with every run but the last closed out and the last run flushed only under a new key. At the first malformed line, it fails with that line's error and the table holds only the close-outs of the runs before the current one. Each mean is taken over a non-empty accumulator. The new state is determined by the lines and the prior state, so two fresh objects loaded from the same lines end up equal. |
| CpiData.CPIData.LoadData | api.py:67-104 | The data loop. It moves the bounds as above. With all lines well formed, it passes and the table is `Flushed` of the prior table and the observations. At the first malformed line, it fails with that line's error and the table is `ClosedOut`: no final flush. Its loop invariant ties the accumulator and `current_year` to the last run of the observations read so far. |
| CpiData.FindHeader | api.py:69-75 | The forward scan that replaces the busy-wait. It returns the index of the first header line, or nothing when no line starts with `DATE `. |
| CpiData.ParseEach | api.py:69-86 | Parsing in order: never more observations than lines, and one per line when no line fails. |
| CpiData.ParseLine | api.py:79-86 | One data line. A line with no fields fails with `MissingField(0)`. On success there are at least two fields, the year is `int()` of the first field's text before `-`, and the value is `float()` of the second field. `ParseLineOfFields`, `DataLineRoundTrip` and `MalformedLines` state the rest. |
| CpiData.ParseEachSpec | api.py:69-86 | The parsed observations are exactly the results of the lines before the first malformed line. When there is a failure, it is that line's error. |
| CpiData.ParsingContinues | api.py:79-86 | A well-formed line after a well-formed prefix adds exactly its observation. |
| CpiData.HeaderIndex | api.py:69-75 | Finds the first line starting with `DATE `: no earlier line starts with it, and none at all when the result is absent. |
| CpiData.IsHeader | api.py:74 | The header test `line.startswith("DATE ")`. This is the definition; `HeaderIndex`, `HeaderFirstField` and `HeaderWaitAsWritten` state its properties. |
| CpiData.ParsingStopsAt | api.py:79-86 | Once a line fails to parse, the load's parse stops there, with the observations before it and that line's error. |
| CpiData.ClosedOutStep | api.py:94-99 | Reading an observation of the current year extends the accumulator and leaves the table alone. A new year stores the mean of the previous run under its year, overwriting, and starts a one-value accumulator. |
| CpiData.NoDataLines | api.py:67-68 | When the header is the last line, the lines after it parse to nothing, and the load leaves the table and both bounds unchanged. |
| CpiData.ParseLineOfFields | api.py:79-86 | A line whose first field's text before `-` is an integer and whose second field is a number is that observation. Any further fields are ignored. |
| CpiData.DataLineFields | api.py:79 | `split()` gives back the date field, the value field and any further fields. The date and the value may be separated by a whitespace run of any length, the further fields are single-spaced, and the line ends in any whitespace. |
| CpiData.DateTokenYear | api.py:85 | The year written before the first `-` of a date token is read back by `int()`. |
| CpiData.DataLineRoundTrip | api.py:79-86 | A line `<year>-<date>`, a whitespace run of any length, `<whole>.<frac>` and any further fields, ending in any whitespace, parses to the year and to the decimal value written. |
| CpiData.MalformedLines | api.py:79-86 | Malformed lines are errors, not skipped lines, reported in Python's evaluation order. A blank line lacks field 0 (`MissingField(0)`). A date whose text before `-` is not an integer gives `BadYear`, even when a bad value follows. A date with no value lacks field 1 (`MissingField(1)`). A value `float()` rejects gives `BadValue` with that token. |
| CpiData.HeaderFirstField | api.py:74-79 | The first field `split()` gives for a header line is `DATE`. |
| CpiData.HeaderLineIsNotData | api.py:74-85 | The header line, if split and parsed like a data line, fails on `int("DATE")`. |
| CpiData.CPIData.GetAdjustedPrice | api.py:106-126 | Succeeds exactly when the clamped year is a key with nonzero CPI and the reference year is a key. The result then satisfies result × cpi[clamped year] = price × cpi[reference year]. It reads the object and changes nothing. |
| CpiData.ReferenceYear | api.py:113-114 | The reference year is never above 2013. A given year at or below 2013 is kept, and an absent or later one becomes 2013. `ReferenceYearCeiling` and `ReferenceYearNotClamped` state its effect on the adjuster. |
| CpiData.CPIData.ClampedYear | api.py:118-121 | A year is looked up only once `first_year` is set, and the year looked up is `first_year`, `last_year` or the year itself. With ordered bounds it lies within them. `YearBelowRange`, `YearAboveRange`, `YearInRange` and `InvertedBoundsSwapYears` state the rest. |
| CpiData.CPIData.LookUpAndScale | api.py:123-126 | An unset bound fails first with `NotLoaded`. The year is looked up before the reference year, so a missing year is reported even when the reference year is missing too. On success, result × cpi[year] = price × cpi[reference year]. |
| CpiData.ReferenceYearCeiling | api.py:113-114 | An absent current year, or any current year above 2013, gives the same result as 2013. |
| CpiData.ReferenceYearNotClamped | api.py:113-124 | A current year at or below 2013 is used as given, even below `first_year`. When the clamped year is a key and the current year is not, the adjustment fails on the current year's lookup. |
| CpiData.YearBelowRange | api.py:118-119 | When `first_year` ≤ `last_year`, a year before `first_year` gives exactly the result for `first_year`. |
| CpiData.YearAboveRange | api.py:120-121 | When `first_year` ≤ `last_year`, a year after `last_year` gives exactly the result for `last_year`. |
| CpiData.YearInRange | api.py:118-121 | A year within `[first_year, last_year]` is looked up as given. |
| CpiData.InvertedBoundsSwapYears | api.py:118-121 | With bounds inverted by unsorted input, no year is looked up as given: years before `first_year` use it and all others use `last_year`. |
| CpiData.AdjustToSameYear | api.py:123-126 | When the clamped year is the reference year and its CPI is nonzero, the result is the price itself. |
| CpiData.UnloadedCannotAdjust | api.py:118 | On an object that has not loaded anything, the adjuster fails (`NotLoaded`). |
| CpiData.ClampedYearIsKey | api.py:94-121 | After a complete load of at least one observation into a fresh object, the clamped year is a key exactly when the year is outside the bounds or was observed. A gap year inside the bounds fails. |
| CpiData.AdjustExample | api.py:106-126 | With the table {2010: 217.3715, 2011: 220.223}, adjusting 100 from 2010 to 2011 succeeds and lies between 101.31 and 101.32. |
| CpiData.HeaderWaitNeverExits | api.py:74-75 | As written, the header wait never exits on a line that is not the header, however many iterations it runs. |
| CpiData.HeaderWaitAsWritten | api.py:74-75 | The header wait as written, cut off after a number of iterations: on a header line it exits. `HeaderWaitNeverExits` states that on any other line it never does. |
| CpiData.AdjusterAsWrittenWhenImported | api.py:112 | As written, the adjuster returns nothing for any module name other than `__main__`. Under `__main__` it returns the corrected adjuster's result. |
| CpiData.CPIData.GetAdjustedPriceAsWritten | api.py:112 | The adjuster as written returns nothing exactly when the module name is not `__main__`. |
| Series.Runs | api.py:94-99 | Cuts the stream into runs that are non-empty and maximal (neighbours differ in year). The runs are empty only for an empty stream, and the last run has the last observation's year. |
| Series.RunsSnoc | api.py:94-99 | One more observation extends the last run when its year matches, and starts a new run otherwise. |
| Series.RunsFlatten | api.py:94-99 | Reading the runs back as observations gives the stream itself: nothing is lost or reordered. |
| Series.Closed | api.py:96 | Closing out runs onto a table adds exactly the runs' years as keys. |
| Series.ClosedOut | api.py:94-99 | The table while the stream is read: every run but the last is closed out. This is the definition; `ClosedOutStep`, `FlushedKeys`, `ClosedLastWriter` and `UnobservedYearsKept` state its properties. |
| Series.Flushed | api.py:94-104 | The table once the stream ends: the last run is stored only under a new key. This is the definition; `FlushedKeys`, `StoredValueIsLatestClosedRun`, `FinalRunStoredWhenNew` and `UnobservedYearsKept` state its properties. |
| Series.AverageOfRuns | api.py:94-104 | `Flushed` on an empty table. This is the definition; `AverageKeys`, `ContiguousMeans`, `BoundsAreKeys` and `AverageOfRunsExample` state its properties. |
| Series.Mean | api.py:96 | `sum(year_cpi) / len(year_cpi)` over a non-empty list. This is the definition; `ContiguousMeans` and `AverageOfRunsExample` state its use. |
| Series.RunYearsAreYears | api.py:94-99 | The runs cover exactly the years of the stream. |
| Series.FlushedKeys | api.py:94-104 | After a load, the keys are the prior keys plus every observed year, and nothing else. The mid-stream table's keys are among them. |
| Series.UnobservedYearsKept | api.py:94-104 | A year already in the table that the stream never mentions keeps its prior value, mid-stream and after the final flush. |
| Series.AverageKeys | api.py:94-104 | On a fresh table, the keys are exactly the years seen. |
| Series.ClosedLastWriter | api.py:96 | A closed-out run's mean stays in the table unless a later run of the same year is closed out. Mid-stream close-outs overwrite. |
| Series.StoredValueIsLatestClosedRun | api.py:96-104 | A year's stored value is the mean of its latest closed-out run, even when the final run has the same year. The final flush never overwrites. |
| Series.FinalRunStoredWhenNew | api.py:103-104 | The last run's mean is stored when no earlier run had its year. |
| Series.RunsOfContiguous | api.py:94-99 | For year-contiguous input, the runs have distinct years, and each run holds all of its year's values in stream order. |
| Series.ContiguousMeans | api.py:94-104 | For year-contiguous input, every observed year is a key, and its value is the mean of exactly the values recorded under it. |
| Series.BoundsFollowStreamOrder | api.py:88-90 | `first_year` becomes the first observation's year only if it was unset, and otherwise keeps its value. `last_year` becomes the last observation's year. |
| Series.BoundsStep | api.py:88-90 | One more observation sets `first_year` only while it is unset, and always sets `last_year` to its year. |
| Series.NextFirstYear | api.py:88-89 | `first_year` after a stream. This is the definition; `BoundsFollowStreamOrder` and `BoundsStep` state its properties. |
| Series.NextLastYear | api.py:90 | `last_year` after a stream. This is the definition; `BoundsFollowStreamOrder`, `BoundsStep` and `UnsortedLastYearIsNotMax` state its properties. |
| Series.BoundsAreKeys | api.py:88-104 | After a complete load of at least one observation into a fresh object, both bounds are keys of the table. |
| Series.SortedBoundsAreMinMax | api.py:88-90 | For input sorted by year, every key lies between `first_year` and `last_year`. |
| Series.UnsortedLastYearIsNotMax | api.py:88-90 | On unsorted input, `last_year` can be below a key: it is not the numeric maximum. |
| Series.AverageOfRunsExample | api.py:94-104 | The observations 2010: 218.056, 2010: 216.687 and 2011: 220.223 give the table {2010: 217.3715, 2011: 220.223}. |
| Text.Split | api.py:79 | `str.split()`: every field is non-empty and free of whitespace. |
| Text.SplitFirstField | api.py:79 | A leading word followed by whitespace or the end of the line is the first field. |
| Text.SplitJoin | api.py:79 | Splitting fields joined by spaces, with any trailing whitespace such as the newline, gives the fields back. |
| Text.SkipRun | api.py:79 | A run of whitespace of any length in front of a string does not change its fields. |
| Text.SplitAfterRun | api.py:79 | A word followed by a whitespace run of any length is the first field, and the fields after it are those of the rest. |
| Text.BeforeDash | api.py:85 | `s.split("-")[0]`: a prefix of the token with no `-`, ending at the first `-` or at the end of the token. |
| Text.ParseInt | api.py:85 | `int()` on one token. This is the definition; `ParseIntNatToString`, `DateTokenYear` and `DateIsNotYear` state its properties. |
| Text.ParseIntNatToString | api.py:85 | `int()` reads back a year written in decimal, with an optional `+`, or with `-` for a positive number. |
| Text.ParseDecimal | api.py:86 | `float()` on one token. This is the definition; `ParseDecimalPointed` and `DataLineRoundTrip` state its properties. |
| Text.ParseDecimalPointed | api.py:86 | `float()` reads `<digits>.<digits>` as the whole part plus the fraction scaled by its number of digits. |

## Left out

- `load_from_url` (api.py:24-61) is left out: it is HTTP retrieval and a file copy that ends in `load_from_file`. The loader takes the file's lines as a sequence of strings.
- The `print_function` import and `CPI_DATA_URL` (api.py:1-4) are left out, because they carry no logic.
- IEEE floating point is left out: values, prices, means and the ratio are exact reals, with no rounding.
- Text.ParseDecimal: only plain decimal notation is accepted, meaning an optional sign, digits, and at most one point. Python's `float()` also accepts exponents, `inf`, `nan`, underscores between digits, surrounding whitespace and non-ASCII decimal digits, and those tokens give `BadValue` here.
- Text.ParseInt: only ASCII digits with an optional sign are accepted. Python's `int()` also accepts underscores between digits and non-ASCII decimal digits.
- Text.Split: only ASCII whitespace, plus the separators 0x1C-0x1F, splits fields. Python 3's `str.split()` also splits on other Unicode whitespace.
- Error kinds are simplified. `NotLoaded` stands for the exception Python 3 raises when comparing a year with `None`, whereas Python 2 falls through to a `KeyError`. The exact Python exception classes and messages are not modelled.
- The busy-wait and the `__name__` gate are modelled only through the as-written members listed under Findings. The rest of the model uses the corrected loader and adjuster.

## Findings

| source | as written | input that shows it | evidently intended | confidence | as-written member | corrected member |
|---|---|---|---|---|---|---|
| api.py:74-75 | `while not line.startswith("DATE "): pass` re-tests the same line without reading the next one | any stream whose first line is a title line, such as `Title: CPI` | skip lines until the header line; fail with a missing-header error if there is none | high, not executed | CpiData.HeaderWaitNeverExits | CpiData.CPIData.LoadFromFile |
| api.py:74-85 | the header line, once it passes the wait, is split and parsed as data | a stream whose first line is `DATE       VALUE` | start parsing on the line after the header | high, not executed | CpiData.HeaderLineIsNotData | CpiData.CPIData.LoadFromFile |
| api.py:112 | the adjuster's whole body is under `if __name__ == '__main__':`, so it returns `None` whenever `api` is imported | any call of `get_adjusted_price` from a program that imports `api` | clamp, look up and scale unconditionally | high, not executed | CpiData.AdjusterAsWrittenWhenImported | CpiData.CPIData.GetAdjustedPrice |
