# Flight dashboard pipeline

A Dafny model of the data pipeline in `dashboard.py`, the Streamlit flight dashboard. The pipeline reads
the movement log (`Fecha UTC`, `Aeropuerto`, `Aerolinea Nombre`, `Tipo de Movimiento`, `PAX`) and does three things:

- **Load** (`Flights.Load`). It parses every `Fecha UTC` with the fixed pattern `%d/%m/%Y` and adds the
  `YearMonth` (`YYYY-MM`) and `Quarter` columns. The first row whose date does not parse, or is not a real
  calendar date, makes the whole load fail (`DateText`, `Calendar`, `Buckets`). pandas lets a few
  special texts through instead (missing-date spellings such as "NaT", and "now" and "today"); the model
  rejects them too (see "## Left out").
- **Filter** (`Filtering`). An inclusive date window is always applied. Three exact-match selections follow:
  airport, airline and movement type. Each one is skipped when it holds the sentinel `'Todos'`. The date
  window defaults to the earliest and latest date of the data.
  - The filter is modelled as a chain of stages applied one after another (`Narrow`), as the script rebinds
    `filtered_data`.
  - It is proved equal to a one-pass reference (`Sift`) and to a single predicate (`Matches`).
- **Aggregate** (`Aggregation`). The KPI tiles are the number of flights, the passenger total, the number of
  distinct airports and the sum of the quarterly counts. The charts are fed by group-by counts per month,
  per airport, per airline and per movement type. Each grouping is a `map` from category to count.

Modules:

- `results.dfy`: `Results` (`Option`, `Result`).
- `digits.dfy`: `Digits` (decimal digit strings, zero padding).
- `calendar.dfy`: dates, leap years, days per month, the date order, earliest and latest date.
- `date_text.dfy`: the `%d/%m/%Y` reader and the proof that it accepts exactly the spellings of real dates.
- `buckets.dfy`: the month and quarter buckets.
- `flights.dfy`: raw and loaded rows, and the load loop.
- `filtering.dfy`: criteria, stages, the filter chain and its properties.
- `aggregation.dfy`: KPIs, group counts and their properties.

## Model

| member | source | states |
|---|---|---|
| Digits.Pad | dashboard.py:40 | the zero-padded rendering of n in w digits has exactly w digits and reads back as n |
| Digits.PadUnique | dashboard.py:40 | every all-digit string of width w is the zero-padded rendering of its own value, which is below 10^w |
| Calendar.IsLeapYear | dashboard.py:39 | no contract of its own; DaysInMonth and LeapYearExamples state the Gregorian rule it decides |
| Calendar.ValidDate | dashboard.py:39 | no contract of its own; ParseDateMeaning, LeapDayParsing and LeapYearExamples state which dates it admits |
| Calendar.DaysInMonth | dashboard.py:39 | a month has 28 to 31 days; 29 exactly for February of a leap year, 28 exactly for February of a common year, 31 exactly for January, March, May, July, August, October and December |
| Calendar.LeapYearExamples | dashboard.py:39 | 29 February exists in 2024 and 2000 but not in 2023 or 1900; 31 February, 31 April and year 0 are not dates |
| Calendar.OrderIsTotal | dashboard.py:66-67 | the date order used by the window is reflexive, total, antisymmetric and transitive |
| Calendar.Earliest | dashboard.py:55 | the minimum date is one of the dates and is on or before each of them |
| Calendar.Latest | dashboard.py:56 | the maximum date is one of the dates and is on or after each of them |
| DateText.ParseDayMeaning | dashboard.py:39 | `%d` reads n exactly when 1 <= n <= 31 and the text is one of n's spellings: two digits, or for n < 10 one digit or a space and a digit |
| DateText.ParseMonthMeaning | dashboard.py:39 | `%m` reads m exactly when 1 <= m <= 12 and the text is two digits, or one digit for m < 10 |
| DateText.ParseYearMeaning | dashboard.py:39 | `%Y` reads y exactly when the text is four digits spelling y |
| DateText.ParseDay | dashboard.py:39 | no contract of its own; ParseDayMeaning characterises it |
| DateText.ParseMonth | dashboard.py:39 | no contract of its own; ParseMonthMeaning characterises it |
| DateText.ParseYear | dashboard.py:39 | no contract of its own; ParseYearMeaning characterises it |
| DateText.Format | dashboard.py:39 | no contract of its own; FormatRoundTrip and FormatOfImpossibleDay state that its `dd/mm/yyyy` text is read back by the `%d/%m/%Y` reader |
| DateText.SplitDate | dashboard.py:39 | a split at the first two slashes yields parts that rebuild the text, the first two without a slash |
| DateText.ParseDate | dashboard.py:39 | every date the reader returns is a real calendar date |
| DateText.ParseDateSound | dashboard.py:39 | a parsed date is a valid date and the text spells it as day/month/year |
| DateText.ParseDateComplete | dashboard.py:39 | every spelling of a valid date as day/month/year parses to that date |
| DateText.ParseDateMeaning | dashboard.py:39 | the reader returns d if and only if d is a valid date and the text spells it |
| DateText.FormatRoundTrip | dashboard.py:39 | the canonical `dd/mm/yyyy` text of a valid date parses back to that date |
| DateText.FormatOfImpossibleDay | dashboard.py:39 | a well-formed day/month/year whose day does not exist in that month is rejected as not a calendar date |
| DateText.NoSlashIsBadFormat | dashboard.py:39 | a text without a slash is rejected as a format error |
| DateText.ParseDateAccepts | dashboard.py:39 | "17/05/2024" parses to 17 May 2024 |
| DateText.ParseDateRejectsImpossibleDay | dashboard.py:39 | "31/02/2024" is rejected as not a calendar date |
| DateText.LeapDayParsing | dashboard.py:39 | 29/02 of year y parses exactly when y is a leap year, and is otherwise rejected as not a calendar date |
| DateText.ParseDateRejectsIsoText | dashboard.py:39 | "2024-05-17" is rejected as a format error |
| Buckets.MonthBucket | dashboard.py:40 | `YearMonth` has seven characters: the four-digit year, a dash, the two-digit month |
| Buckets.MonthBucketSameMonth | dashboard.py:40 | two dates share a `YearMonth` if and only if they share year and month |
| Buckets.QuarterOf | dashboard.py:41 | the quarter has the date's year, a number from 1 to 4, and contains the date's month |
| Buckets.QuarterFollowsMonth | dashboard.py:40-41 | dates with the same `YearMonth` have the same `Quarter` |
| Buckets.BucketsOf17May2024 | dashboard.py:40-41 | 17 May 2024 is in month "2024-05" and in quarter 2 of 2024 |
| Flights.Load | dashboard.py:39-41 | the load succeeds if and only if every date parses; then each loaded row is its raw row with the parsed date and that date's buckets; otherwise the error names the first failing row and its cause |
| Flights.LoadedIsWellFormed | dashboard.py:39-41 | every loaded row carries a valid date and the buckets of that date |
| Filtering.Sift | dashboard.py:65-75 | the kept rows are an order-preserving subsequence, and each row is kept as often as it occurs exactly when it passes every stage |
| Filtering.Stages | dashboard.py:65-75 | no contract of its own; StagesMeanMatches states that its chain is the window plus each selection that is not `'Todos'` |
| Filtering.Narrow | dashboard.py:65-75 | no contract of its own; NarrowIsSift and NarrowOrderIrrelevant characterise it |
| Filtering.Filter | dashboard.py:65-75 | no contract of its own; FilterMeaning, FilterKeepsSelection and FilterIdempotent characterise it |
| Filtering.Matches | dashboard.py:65-75 | no contract of its own; StagesMeanMatches and FilterMeaning tie it to the filter chain |
| Filtering.StagesMeanMatches | dashboard.py:65-75 | a row passes the stage chain of the criteria exactly when it is in the inclusive window and equals every selection that is not `'Todos'` |
| Filtering.NarrowIsSift | dashboard.py:65-75 | narrowing stage by stage gives the same rows as one pass over all stages |
| Filtering.SiftKeepsAll | dashboard.py:65-75 | when every row passes, nothing is removed |
| Filtering.SiftIdempotent | dashboard.py:65-75 | sifting twice with the same stages equals sifting once |
| Filtering.FilterMeaning | dashboard.py:65-75 | the filtered rows are an order-preserving subsequence, keep every matching row with its multiplicity and nothing else |
| Filtering.FilterKeepsSelection | dashboard.py:65-75 | every kept row lies within both inclusive bounds and equals each selection that is not `'Todos'` |
| Filtering.AllSelectorsOff | dashboard.py:70-75 | with all three selections at `'Todos'` the filter is the date window alone |
| Filtering.FilterIdempotent | dashboard.py:65-75 | filtering a filtered sequence again with the same criteria changes nothing |
| Filtering.NarrowOrderIrrelevant | dashboard.py:65-75 | applying the same stages in any order gives the same rows |
| Filtering.InvertedRangeKeepsNothing | dashboard.py:65-68 | a start date after the end date keeps no row |
| Filtering.WindowMissesEveryRow | dashboard.py:65-68 | a date window that contains no row's date keeps no row, whatever the selections |
| Filtering.DefaultCriteria | dashboard.py:55-56 | default criteria exist exactly for non-empty data: both bounds are dates of the data, every row lies between them, every selection is `'Todos'` |
| Filtering.DefaultFilterKeepsAll | dashboard.py:55-75 | filtering with the default criteria returns the loaded rows unchanged |
| Aggregation.GroupCount | dashboard.py:81 | a grouping has an entry for exactly the key values that occur; each entry is the number of rows with that key and is at least 1; absent keys have no rows |
| Aggregation.Summarize | dashboard.py:78-130 | the distinct-airport count is the number of keys in the per-airport grouping; an empty selection gives zero KPIs and empty groupings |
| Aggregation.TotalPassengers | dashboard.py:79 | no contract of its own; TotalPassengersAppend and TotalPassengersPermutation characterise it |
| Aggregation.Airports | dashboard.py:80 | no contract of its own; Summarize states that its size equals the number of per-airport keys |
| Aggregation.Tally | dashboard.py:81 | no contract of its own; GroupCount, TallyAppend and TallyPermutation characterise it |
| Aggregation.GroupCountTotal | dashboard.py:81 | the counts of any grouping add up to the number of rows |
| Aggregation.GroupingsSumToTotal | dashboard.py:81-130 | the quarterly, monthly, per-airport, per-airline and per-movement counts each add up to the flight total |
| Aggregation.QuarterlyTile | dashboard.py:97 | the quarterly tile, the sum of the per-quarter counts, equals the number of flights |
| Aggregation.TotalPassengersAppend | dashboard.py:79 | the passenger total of two row sequences joined is the sum of their totals |
| Aggregation.TallyAppend | dashboard.py:81 | a group's count over two row sequences joined is the sum of its counts over each |
| Aggregation.TotalPassengersPermutation | dashboard.py:79 | the passenger total does not depend on the order of the rows |
| Aggregation.TallyPermutation | dashboard.py:81 | a group's count does not depend on the order of the rows |
| Aggregation.GroupCountPermutation | dashboard.py:81 | a grouping does not depend on the order of the rows |
| Aggregation.SummarizePermutation | dashboard.py:78-130 | every KPI and grouping is independent of the order of the filtered rows |
| Aggregation.InvertedRangeSummary | dashboard.py:65-81 | a start date after the end date gives zero flights, zero passengers, zero airports and empty groupings |
| Aggregation.EmptyWindowSummary | dashboard.py:65-81 | a date window that contains no row's date gives zero flights, zero passengers, zero airports and empty groupings |
| Aggregation.AirportCountsOfThree | dashboard.py:112 | three flights, two at one airport, group into counts 2 and 1 over two keys |
| Aggregation.ThreeFlightsTwoAirports | dashboard.py:55-80 | three flights, two at one airport, filtered with the initial selection, show 3 flights, the sum of their passengers, 2 airports and per-airport counts 2 and 1 |

## Left out

- The Lottie animation fetch and its local-file fallback (dashboard.py:16-32) are left out: they are network and file I/O.
- Reading the two CSV files (dashboard.py:35-36) is left out: it is file I/O. Rows arrive as already split records (`Flights.RawRow`). `aeropuerto_detalle` is read but never used by this script, so nothing about it is modelled.
- Widgets, layout, metric tiles, the `:,` thousands formatting, the fixed delta text and the Plotly charts with their colours and "total descending" order (dashboard.py:9-13, 44-62, 84-133) are left out: they are presentation. The values computed at lines 97, 105, 112, 122 and 130 are modelled (`Aggregation.QuarterlyTile`, `Aggregation.Summarize`).
- The conversion of the widget dates with `pd.to_datetime` (dashboard.py:66-67) is not modelled: the bounds are plain dates.
- Flights.Load: the script overwrites `Fecha UTC` in the data frame and adds two columns in place; the model builds a new sequence of rows instead.
- DateText.ParseDate: does not model pandas' nanosecond timestamp range (years 1677 to 2262), whose exact handling depends on the pandas version. Every year from 1 to 9999 is accepted.
- DateText.ParseDate: pandas turns an empty or missing date, or a text spelling a missing timestamp ("NaT", "nat", "NAT", "NAN" and the like), into a missing timestamp (NaT) instead of failing. The model has no missing dates: it rejects all of these texts as a format error. On pandas 2.0 and later the exact texts "now" and "today" are also accepted, before the pattern is tried: they load as the current timestamp, which depends on the clock and carries a time of day. The model has no clock and keeps every date at midnight, so it rejects both texts as a format error.
- Flights.Load: a row whose `Fecha UTC` is empty or reads "NaT", "nat", "NAT" or "NAN" loads in pandas as a row with a missing date, which the date window at dashboard.py:65-68 later drops. In the model such a row makes the whole load fail (`Err(LoadError(i, BadFormat))`). Likewise, on pandas 2.0 and later a row whose `Fecha UTC` is exactly "now" or "today" loads with the current timestamp read from the clock; in the model it makes the load fail with `Err(LoadError(i, BadFormat))`.
- DateText.ParseDate: accepts ASCII digits only. The regular expressions pandas uses also accept other Unicode decimal digits.
- Aggregation.TotalPassengers: `PAX` is a natural number, with an absent value read as 0. The 64-bit overflow of the pandas sum is not modelled.
- Aggregation.GroupCount: every key column is taken to be non-null. pandas `count()` and `groupby` skip null values; the model has none.
- Aggregation.GroupCount: a grouping is a map. The row order that `groupby` and `reset_index` give to the chart tables is not modelled.
- Filtering.DefaultCriteria: for an empty log, pandas' minimum and maximum are NaT; the model returns `None`.
