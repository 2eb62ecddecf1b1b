# COVID-19 statistics dashboard: dates, aggregation, time series and table paging

The dashboard loads the ECDC daily records (one record per country and day,
with `dateRep` in `DD/MM/YYYY` form, `cases`, `deaths`, the country name and
the 2019 population). It shows them as a table with one row per country, or
as a chart of daily totals. This project models the logic behind both views
and proves what it computes:

- `calendar.dfy` (module `Calendar`), after `src/utils/date.ts`:
  - `parseApiDate` with each of its four errors;
  - `Date.UTC`, including its roll-over of impossible days and its mapping of years 0–99 to 1900–1999;
  - `getTime`;
  - `normalizeDate`, which rebuilds the date through `Date.UTC`, so that a date in years 0–99 moves to 1900–1999;
  - `isDateInRange`;
  - the `getMinMaxDates` loop;
  - the `toISOString().slice(0, 10)` day key.
- `records.dfy` (module `Records`): the record, the record paired with its parsed date, and the windows, per-country and per-day selections that both views use.
- `aggregate.dfy` (module `Aggregate`), after `src/utils/aggregate.ts`:
  - `safePopulation` and `calcPerThousand`;
  - the accumulation loop of `aggregateByCountry`, as a method proved against a function of the records seen so far;
  - the finalisation of each country's row (totals, per-1000 rates, per-day averages and peaks);
  - the country-name filter, the numeric min/max filter and the sort by country.
- `series.dfy` (module `Series`), after `src/utils/series.ts`:
  - `buildTimeSeries`, with its grouping loop as the method `GroupByDay`;
  - what the series means: one point per day with records, the day's sums, strictly ascending keys, totals that add up.
- `table.dfy` (module `Table`), after `src/components/CovidTable/CovidTable.tsx`:
  - the comparator and the sort;
  - the pagination arithmetic (`totalPages`, `safePage`, the visible slice);
  - the state kept between renders, as the class `CovidTableState` with its handlers;
  - what a render shows.
- `examples.dfy` (module `Samples`): the console samples `debugAggregateSample` and `debugBuildSeriesSample`, both of its calls (no country selected, then `"Spain"`), worked out as lemmas. The checks in the comment at the end of `date.ts` (parsing, the range test and `getMinMaxDates`) are worked out in `calendar.dfy`.
- `wrappers.dfy`, `sequences.dfy`, `strings.dfy` and `sorting.dfy` are support modules:
  - `Option` and `Result`;
  - filtering, summing and parse-all-or-fail over sequences;
  - `trim`, `toLowerCase`, `includes` and string order;
  - an insertion sort that stands in for `Array.prototype.sort`.

How the JavaScript is modelled:

- A thrown error becomes a `Failure` value. Parsing all records with `.map(parseApiDate)` becomes `MapResult(ParseRecord, records)`, which fails with the first record's error.
- A `Date` is its UTC day plus the milliseconds since midnight. `getTime()` is proved to order dates by (day, time of day) (`Calendar.GetTimeOrder`).
- A numeric bound is `None` when its text is blank. Otherwise it is a `JsNumber`: `NaN`, `±Infinity` or a finite real.
- Mutable `Map`s are Dafny `map`s. Their insertion order is kept as a separate `seq` of keys.
- The day keys used by the aggregation are days, not strings. `Calendar.IsoDateInjective` and `Calendar.IsoDateOrder` show this is the same grouping and the same `.sort()` order as the `YYYY-MM-DD` strings.

Two facts about the code that the model follows:

- A numeric bound is active whenever its text is not blank and `Number` of it is not `NaN` (aggregate.ts:112-125). Only `NaN` is checked, so `Infinity` and `-Infinity` bounds are active and do filter.
- `CountryRow` has the twelve fields that `aggregateByCountry` builds (aggregate.ts:81-94), including the averages and peaks. The table's eleven column headers (CovidTable.tsx:114-226) sort by every field except `population`; the comparator also covers `population`, which no header offers. The type declarations in `src/types/stats.ts` are stale: they declare an eight-field row and no `numericFilter`. They are still imported, as types only, by aggregate.ts:3, series.ts:2, CovidTable.tsx:3 and App.tsx:15. The model follows the object that aggregate.ts:81-94 builds.

## Model

| member | source | states |
|---|---|---|
| Calendar.DateUtc | src/utils/date.ts:25 | `Date.UTC` reads years 0–99 as 1900–1999 and keeps other years; in that year it keeps the month and day when they form a real day, and otherwise rolls the excess days over into the next month; so it returns the given day exactly when that is a valid day with year ≥ 100; the time is midnight |
| Calendar.ParseApiDate | src/utils/date.ts:5-37 | succeeds exactly when the trimmed text matches `DD[/-]MM[/-]YYYY` and names a real day with year ≥ 100, returning that day's UTC midnight; `InvalidFormat`, `InvalidMonth`, `InvalidDay` each exactly when its check is the first to fail, `InvalidCalendarDate` otherwise |
| Calendar.ParseFormatted | src/utils/date.ts:5-37 | round trip: any valid day written as `DD?MM?YYYY` with `/` or `-` separators parses back to that day's midnight |
| Calendar.ParsedIsFormatted | src/utils/date.ts:6-36 | inverse round trip: an accepted text, trimmed, is the formatting of the day it parses to |
| Calendar.ShortYearsRejected | src/utils/date.ts:25-34 | a well-formed text with year 0000–0099 is rejected, because `Date.UTC` moves those years to 1900–1999 |
| Calendar.ExampleParseAccepted | src/utils/date.ts:73 | `"01/12/2019"` is 2019-12-01 at midnight UTC |
| Calendar.ExampleMixedSeparators | src/utils/date.ts:6 | `"29-02/2020"` is accepted: each separator may be `/` or `-` independently |
| Calendar.ExampleThirtyFirstFebruary | src/utils/date.ts:28-34 | `"31/02/2020"` fails with the calendar-date error |
| Calendar.ExampleNonLeapTwentyNinth | src/utils/date.ts:28-34 | `"29/02/2019"` fails with the calendar-date error |
| Calendar.ExampleShortYear | src/utils/date.ts:25-34 | `"01/01/0099"` fails with the calendar-date error |
| Calendar.ExampleIsoInput | src/utils/date.ts:6-9 | `"2020-13-01"` fails with the format error |
| Calendar.ExampleMonthThirteen | src/utils/date.ts:17-19 | `"01/13/2020"` fails with the month error |
| Calendar.ExampleDayZero | src/utils/date.ts:20-22 | `"00/12/2020"` fails with the day error |
| Calendar.GetTimeOrder | src/utils/date.ts:46-49 | `getTime()` orders dates by calendar day, then time of day |
| Calendar.NormalizeDate | src/utils/date.ts:40-42 | midnight; outside years 0–99 the same UTC day, with `getTime()` at most the original and less than a day before it; in years 0–99 the same month and day in 1900–1999, except that 29 February of year 0 becomes 1 March 1900 |
| Calendar.NormalizeIdempotent | src/utils/date.ts:40-42 | normalising twice is normalising once |
| Calendar.NormalizeSameDay | src/utils/date.ts:40-42 | dates on the same UTC day normalise to the same date |
| Calendar.InRangeIsDayInterval | src/utils/date.ts:45-50 | `isDateInRange` holds exactly when the date's normalised day lies between the normalised days of `from` and `to`, both included, whatever the times of day; when none of the three is in years 0–99 those are the dates' own days |
| Calendar.RangeEndsIncluded | src/utils/date.ts:44-50 | both ends of a range whose normalised start is not after its normalised end are in it |
| Calendar.InvertedRangeIsEmpty | src/utils/date.ts:45-50 | a range whose normalised start is on a later day than its normalised end contains no date |
| Calendar.ExampleInRange | src/utils/date.ts:74 | 2019-12-01 lies between 2019-11-30 and 2019-12-02 |
| Calendar.ExampleMinMaxParses | src/utils/date.ts:75-79 | the three sample texts 05/01/2020, 01/12/2019 and 20/12/2019 all parse, to their days' midnights |
| Calendar.ExampleMinMaxDates | src/utils/date.ts:75-79 | `getMinMaxDates` of those three texts gives 2019-12-01 as the minimum and 2020-01-05 as the maximum |
| Calendar.ExampleShortYearStart | src/utils/date.ts:40-49 | a start of 0050-06-01 acts as 1950-06-01, so 1900-01-01 is outside the range up to 2020-12-31 |
| Calendar.ExampleShortYearInverted | src/utils/date.ts:40-49 | the range from 0099-12-31 to 0100-01-01 is empty, because its start acts as 1999-12-31 |
| Calendar.TimeRangeExtends | src/utils/date.ts:61-65 | one loop step keeps `min`/`max` the earliest/latest of the dates parsed so far, and among them |
| Calendar.GetMinMaxDates | src/utils/date.ts:53-68 | empty input is the empty-collection error; the first unparsable date's error; otherwise the earliest and the latest date, both among the parsed dates |
| Calendar.IsoDate | src/utils/aggregate.ts:59 | the key is ten characters `YYYY-MM-DD` with dashes at 4 and 7 |
| Calendar.IsoDateOrder | src/utils/aggregate.ts:70 | string order of day keys is calendar order |
| Calendar.IsoDateInjective | src/utils/series.ts:29 | two days have the same key exactly when they are the same day |
| Records.ParseRecordsSucceeds | src/utils/series.ts:17-18 | parsing all records succeeds exactly when every `dateRep` parses, and pairs each record with its own date |
| Records.InWindowSpec | src/utils/series.ts:19 | the date filter keeps exactly the records in the window |
| Records.OfCountrySpec | src/utils/series.ts:22-25 | the country filter keeps exactly the records of that country |
| Records.CountriesOfSpec | src/utils/aggregate.ts:36-47 | the countries in first-seen order have no repeats and are exactly those with records |
| Records.DaysOfSpec | src/utils/aggregate.ts:69 | the days in first-seen order have no repeats and are exactly those with records |
| Records.PerDaySumsAddUp | src/utils/aggregate.ts:75-77 | summing each day's records over the distinct days gives the total over all records |
| Records.PerCountrySumsAddUp | src/utils/aggregate.ts:36-53 | summing each country's records over distinct countries that include every record's country gives the total over all records |
| Aggregate.SafePopulation | src/utils/aggregate.ts:16-17 | never negative; the population itself when it is a positive number, 0 otherwise |
| Aggregate.CalcPerThousand | src/utils/aggregate.ts:19-22 | 0 for a population ≤ 0, otherwise the rate `r` with `r · population = value · 1000` |
| Aggregate.Average | src/utils/aggregate.ts:76-77 | the average times the day count is the total; 0 when there are no days |
| Aggregate.MaxOf | src/utils/aggregate.ts:78-79 | `Math.max(...s)` is an element of `s` and no element exceeds it |
| Aggregate.DailySumsHasDay | src/utils/aggregate.ts:62-63 | the per-day map has an entry for exactly the days with in-window records |
| Aggregate.DailySumsAt | src/utils/aggregate.ts:62-63 | a day's entry is the sum over that day's records |
| Aggregate.DailySumsSpec | src/utils/aggregate.ts:62-63 | both of the above for every day |
| Aggregate.OtherBucketsUnchanged | src/utils/aggregate.ts:49-64 | a record leaves every other country's accumulator unchanged |
| Aggregate.FirstRecordOfCountry | src/utils/aggregate.ts:36-64 | a country's first record creates its accumulator with that record's population and adds the record |
| Aggregate.LaterRecordOfCountry | src/utils/aggregate.ts:49-64 | a later record of a country adds to its existing accumulator (the population stays the first record's) |
| Aggregate.OwnBucketAddsRecord | src/utils/aggregate.ts:36-64 | the record's own country: created if new, then the record added |
| Aggregate.AddRecordDaily | src/utils/aggregate.ts:58-64 | adding an in-window record keeps the per-day maps equal to the per-day sums |
| Aggregate.SortedDays | src/utils/aggregate.ts:70 | the day keys sorted: a permutation, in calendar order |
| Aggregate.PerDay | src/utils/aggregate.ts:71-72 | one value per sorted day, the day's entry or 0 |
| Aggregate.PeakOfDailySums | src/utils/aggregate.ts:78-79 | the maximum of the per-day sums is one day's sum and no day's sum exceeds it |
| Aggregate.RowTotals | src/utils/aggregate.ts:68-95 | a row's all-time totals sum all of its country's records; its period totals sum those in the window; its population is the first record's; the per-1000 rates are of the period totals |
| Aggregate.RowAverages | src/utils/aggregate.ts:73-77 | the averages divide the period totals by the number of distinct days in the window, which sum to those totals |
| Aggregate.RowPeaks | src/utils/aggregate.ts:78-79 | the peaks are 0 with no days in the window, otherwise the largest per-day sum |
| Aggregate.RowSumsAddUp | src/utils/aggregate.ts:32-95 | over the rows before filtering, the all-time totals add up to the total of all records and the period totals to the total of the in-window records |
| Aggregate.WholeWindowRows | src/utils/aggregate.ts:32-95 | when every record is in the window, each row's period totals equal its all-time totals, and both add up over the rows to the totals of all records |
| Aggregate.UnfilteredRowsPerCountry | src/utils/aggregate.ts:68-95 | before filtering there is exactly one row per country with records, each the finalised accumulator of its country |
| Aggregate.CountryFilterSpec | src/utils/aggregate.ts:97-102 | a blank query keeps all rows; otherwise a row is kept exactly when its lower-cased name includes the trimmed, lower-cased query |
| Aggregate.FieldFilterSpec | src/utils/aggregate.ts:104-125 | with no active bound all rows are kept; otherwise a row is kept exactly when its field satisfies every active bound (±Infinity included) |
| Aggregate.CountryLeIsTotalPreorder | src/utils/aggregate.ts:128 | the country comparator is a total preorder, as a sort requires |
| Aggregate.SortByCountry | src/utils/aggregate.ts:128 | the rows rearranged, in ascending order of country name |
| Aggregate.AggregateRowsSpec | src/utils/aggregate.ts:97-130 | the result holds exactly the rows that pass both filters, none repeated beyond the unfiltered rows, sorted by country |
| Aggregate.EmptyInputNoRows | src/utils/aggregate.ts:28-130 | no records, no rows |
| Aggregate.TracksRecord | src/utils/aggregate.ts:32-65 | one pass of the loop keeps the accumulators and their insertion order in step with the records seen |
| Aggregate.AddToAggregates | src/utils/aggregate.ts:33-64 | one pass of the loop over a record: its date's parse error, or accumulators and insertion order in step with the records seen plus this one |
| Aggregate.RowsOf | src/utils/aggregate.ts:68 | one finalised row per country, in insertion order |
| Aggregate.TracksRows | src/utils/aggregate.ts:68-95 | after the loop, finalising the map in insertion order gives the unfiltered rows |
| Aggregate.AggregateByCountry | src/utils/aggregate.ts:28-131 | the first unparsable record's error, or the filtered and sorted rows of the parsed records |
| Series.ContributingSpec | src/utils/series.ts:14-25 | a record contributes exactly when it is in the window and, for a non-blank trimmed selection, is of that country |
| Series.NoSelectionKeepsAllCountries | src/utils/series.ts:14-24 | no selection or a blank one keeps every in-window record |
| Series.DateLeIsTotalPreorder | src/utils/series.ts:44 | the date comparator is a total preorder |
| Series.SortByDate | src/utils/series.ts:38-44 | the points rearranged, in ascending order of key |
| Series.KeysOfMembership | src/utils/series.ts:28-35 | a day's key is listed exactly when the day has records |
| Series.DayTotalsAddOwn | src/utils/series.ts:30-33 | a record adds its cases and deaths to its own day's totals |
| Series.DayTotalsAddOther | src/utils/series.ts:30-33 | a record leaves the totals of every other day alone |
| Series.GroupedHasDay | src/utils/series.ts:27-35 | the grouped map has a day's key exactly when that day has records |
| Series.GroupedAt | src/utils/series.ts:27-35 | the bucket of a day with records holds that day's case and death sums |
| Series.BumpedOwnDay | src/utils/series.ts:30-33 | get-or-zero, then add: the bucket after a record is its day's totals including it |
| Series.GroupedHasKey | src/utils/series.ts:27-35 | the map's keys are exactly the listed keys |
| Series.GroupedStep | src/utils/series.ts:28-34 | one pass of the loop keeps the map and its key order in step with the records seen |
| Series.GroupedMeaning | src/utils/series.ts:27-35 | after all records, each listed key maps to its day's totals and nothing else is in the map |
| Series.GroupByDay | src/utils/series.ts:27-35 | the loop builds the grouping of the records in first-seen key order |
| Series.GroupsPoints | src/utils/series.ts:37-43 | the map's entries in insertion order are the points of the days with records |
| Series.BuildTimeSeries | src/utils/series.ts:9-47 | the first unparsable record's error, or the sorted points of the contributing records |
| Series.PointsOfDistinctDates | src/utils/series.ts:37-43 | the points have pairwise distinct keys |
| Series.PointsOfCover | src/utils/series.ts:37-43 | every record's day has its point |
| Series.PointsOfListed | src/utils/series.ts:37-43 | every point is the point of some record's day |
| Series.SeriesPointPerDay | src/utils/series.ts:27-44 | the series has a point for every contributing record's day and no other point; its key is the day's `YYYY-MM-DD`, its cases and deaths the day's sums |
| Series.SortedDistinctDatesAscend | src/utils/series.ts:44 | sorting points with distinct keys gives strictly ascending keys |
| Series.SeriesStrictlyAscending | src/utils/series.ts:37-44 | the series is strictly ascending by key: chronological, no day twice |
| Series.SeriesWithinRange | src/utils/series.ts:16-19 | every point's key is the day of a record inside the window, ends included |
| Series.SeriesTotals | src/utils/series.ts:27-44 | the points' cases (or deaths) add up to the contributing records' total |
| Series.OnlyCountryOfDay | src/utils/series.ts:22-33 | when only one country reports on a day, that country's records of the day are all the day's records |
| Series.RecordPointInBothSeries | src/utils/series.ts:14-44 | when no day has records of two countries, an in-window record's day has the same point in the unselected series and in its own country's series |
| Series.CountrySeriesKeysApart | src/utils/series.ts:14-44 | two different countries that share no day have series whose keys do not meet |
| Series.TwoCountriesSeriesUnion | src/utils/series.ts:14-44 | with no country selected, for records of two countries that share no day, the series holds exactly the points of the two single-country series, whose keys do not meet |
| Series.EmptyInputEmptySeries | src/utils/series.ts:9-47 | no records, no points |
| Table.ComparatorIsTotalPreorder | src/components/CovidTable/CovidTable.tsx:53-69 | the comparator, for any column and direction, is a total preorder |
| Table.SortedData | src/components/CovidTable/CovidTable.tsx:53-69 | the rows rearranged, ascending on the column (or descending when so set) |
| Table.TotalPages | src/components/CovidTable/CovidTable.tsx:85 | at least one page; the fewest pages of `pageSize` rows holding all rows |
| Table.SafePage | src/components/CovidTable/CovidTable.tsx:86 | a real page, never after the stored page: the stored page or the last page |
| Table.Slice | src/components/CovidTable/CovidTable.tsx:89 | `slice`: the elements from `start`, at most `end - start` of them, clipped to the list |
| Table.VisibleRows | src/components/CovidTable/CovidTable.tsx:87-89 | at most `pageSize` rows |
| Table.PagesCoverRows | src/components/CovidTable/CovidTable.tsx:85-89 | row `k` is on page `k / pageSize` at position `k % pageSize`, a page that exists; the page shown is never empty |
| Table.PrevPage | src/components/CovidTable/CovidTable.tsx:92-94 | one less than the stored page, never below 0 |
| Table.NextPage | src/components/CovidTable/CovidTable.tsx:96-98 | `Math.min(totalPages - 1, prev + 1)`: one more than the stored page while that is before the last page, otherwise the last page |
| Table.NavigationSteps | src/components/CovidTable/CovidTable.tsx:92-98 | while the stored page is a real page, enabled Next and Previous move the page shown by exactly one, and neither leaves the pages |
| Table.PrevStaysOnStalePage | src/components/CovidTable/CovidTable.tsx:92-94 | as written: with a stored page beyond the last, Previous is enabled yet the page shown does not change |
| Table.ExampleStalePreviousClick | src/components/CovidTable/CovidTable.tsx:92-94 | as written: 15 rows, 10 a page, stored page 4: page 2 of 2 is shown, Previous is enabled, and after a click page 2 is still shown |
| Table.PrevPageFromShown | src/components/CovidTable/CovidTable.tsx:92-94 | corrected: one page back from the page shown, always a real page |
| Table.PrevFromShownMovesBack | src/components/CovidTable/CovidTable.tsx:92-94 | corrected: an enabled Previous always moves the page shown back by one; a disabled one goes to the first page |
| Table.CovidTableState.constructor | src/components/CovidTable/CovidTable.tsx:15-19 | sorted by country ascending, first page, 20 rows a page |
| Table.CovidTableState.HandleHeaderClick | src/components/CovidTable/CovidTable.tsx:35-43 | the active column flips direction; another column becomes active, ascending; paging untouched |
| Table.CovidTableState.HandlePageSizeChange | src/components/CovidTable/CovidTable.tsx:45-50 | the new page size, back on the first page; sorting untouched |
| Table.CovidTableState.HandlePrevPage | src/components/CovidTable/CovidTable.tsx:92-94 | as written: the stored page becomes `PrevPage` of it; nothing else changes |
| Table.CovidTableState.HandlePrevPageFromShown | src/components/CovidTable/CovidTable.tsx:92-94 | corrected: the page shown moves back by one whenever Previous is enabled |
| Table.CovidTableState.HandleNextPage | src/components/CovidTable/CovidTable.tsx:96-98 | the stored page becomes `NextPage` of it for the render's page count, never past the last page |
| Table.CovidTableState.Render | src/components/CovidTable/CovidTable.tsx:22-89 | no rows (or no data) is the empty-state alert; otherwise the page numbered by the stored page clamped to the page count, showing that page's slice of the rows sorted by the stored column and direction, never empty and at most `pageSize` rows, with Previous disabled exactly on the first page and Next exactly on the last |
| Table.VisibleRowsAreRows | src/components/CovidTable/CovidTable.tsx:87-89 | the page's rows are rows of the sorted list |
| Samples.SampleParses | src/utils/aggregate.ts:137-177 | the three sample records all parse, to 1 and 2 December 2019 |
| Samples.SampleWholeWindow | src/utils/aggregate.ts:179-183 | the sample window 01/12/2019–02/12/2019 holds every sample record |
| Samples.SampleIsoDates | src/utils/series.ts:29 | the sample days' keys are `"2019-12-01"` and `"2019-12-02"` |
| Samples.ExampleSeriesAllCountries | src/utils/series.ts:53-108 | the sample series with no country selected is 2019-12-01 with 15 cases and 3 deaths, then 2019-12-02 with 7 and 0 |
| Samples.ExampleSeriesSpain | src/utils/series.ts:53-108 | the sample series with `"Spain"` selected is 2019-12-01 with 5 cases and 1 death, then 2019-12-02 with 7 and 0 |
| Samples.SamplePerThousand | src/utils/aggregate.ts:19-22 | the sample rates: 10 cases in 67 million is 10/67000 per 1000, 12 in 47 million is 12/47000 |
| Samples.ExampleAggregate | src/utils/aggregate.ts:136-192 | the sample aggregates to France (10 cases, 2 deaths) then Spain (12 cases, 1 death), with those rates |
| Samples.SeriesOfShape | src/utils/series.ts:27-44 | two records on one day and one on a later day give two points, the shared day's sums first |
| Samples.PointsOfTwoDays | src/utils/series.ts:22-41 | two records on two different days give one point each, with that record's counts |
| Samples.CountrySeriesOfShape | src/utils/series.ts:14-44 | with the first country selected, the same three records give its two days, each with that country's record alone, in date order |
| Samples.RowsOfShape | src/utils/aggregate.ts:68-95 | records of two countries give one row per country in first-seen order |
| Samples.AggregateOfShape | src/utils/aggregate.ts:28-130 | with no filter, two countries come out in name order with their period totals, populations and rates |
| Samples.NoFilterKeepsRows | src/utils/aggregate.ts:97-125 | a blank query and no active bound leave the unfiltered rows, only sorted |
| Samples.TwoRowsSwapped | src/utils/aggregate.ts:128 | two rows out of name order are swapped |
| Samples.TwoPointsInOrder | src/utils/series.ts:44 | two points already in key order stay in order |

## Left out

- Rendering: the JSX markup, CSS classes, the sort arrows (`renderSortIndicator`) and the page-size `<select>` are not modelled. `Render` returns what the page shows (its rows, page number, page count and button states), not markup.
- The `CovidTable` state is modelled as a class whose handlers update it in place. React's batching of `setState` calls is not modelled.
- `HandleNextPage` and `HandlePrevPageFromShown` take the row count of the render in which the click happens, because the source's handlers capture `totalPages` from that render.
- The sort is an insertion sort with the same comparator as the source. `Array.prototype.sort`'s own algorithm is not modelled.
- Table.SortedData: does not state sort stability. The insertion sort keeps rows that tie on a numeric column in their input order, as the source's stable sort does, but no lemma states it. (Ties cannot happen when sorting by country, since there is one row per country.)
- Series.SortByDate: compares keys by code point (`LexLe`) rather than `localeCompare` (series.ts:44). The keys are fixed-format `YYYY-MM-DD` strings, digits with dashes at the same positions, on which the two orders agree.
- Aggregate.SortByCountry: orders by code point instead of `localeCompare`'s locale collation, because collation tables are outside the model.
- Table.Comparator: the country column also uses code-point order instead of `localeCompare`.
- Strings.ToLower: lower-cases ASCII letters only, not the full Unicode case mapping of `toLowerCase`.
- Aggregate.CalcPerThousand and Aggregate.Average: use exact real arithmetic, not IEEE-754 doubles, so rounding of `value / (population / 1000)` and of the averages is not modelled.
- Counts and populations are integers, and cases and deaths are not range-checked. A fractional population from the feed is not modelled.
- Aggregate.NumericFilter: takes the bounds as already converted numbers (`None` for blank text). The conversion `Number(min)` of the bound's text is not modelled.
- Calendar.GetMinMaxDates: takes the `dateRep` strings rather than the records that carry them.
- Calendar.DateUtc: is modelled only for the inputs `parseApiDate` and `normalizeDate` give it: years 0–9999, months 1–12 and days 1–31. `normalizeDate` calls it only for years 0–99; for other years the model keeps the date's own day, which is what `Date.UTC` returns for a real day.
- Series.GroupByDay: is the grouping loop of `buildTimeSeries`, extracted as a method. The loop's bucket object is mutated in place and stored back in the map; the model treats it as a value.
- In `aggregateByCountry`, a record's totals are added before its date is parsed. When parsing throws, the whole call fails, so the partly updated map is never observable and the model does not keep it.
- Not part of this model: `server.js`, the API client, `App.tsx`'s filter wiring and the chart and filter components, which only call into the core. The `debug*Sample` console helpers are modelled by the `Samples` lemmas.

## Findings

| source | as written | input that shows it | evidently intended | confidence | as-written member | corrected member |
|---|---|---|---|---|---|---|
| src/components/CovidTable/CovidTable.tsx:92-94 | `handlePrevPage` steps back from the stored `currentPage`, which can lie beyond the last page after the rows shrink (`CovidTable` stays mounted while the filters change). Previous is enabled because `safePage > 0` (line 280), but the page shown does not change. | 15 rows, 10 a page, stored page 4: "Page 2 of 2" is shown and Previous is enabled; a click stores page 3 and "Page 2 of 2" is still shown | step back from the page shown, `Math.max(0, safePage - 1)` | medium; not executed | Table.PrevStaysOnStalePage, Table.ExampleStalePreviousClick | Table.PrevPageFromShown, Table.PrevFromShownMovesBack |
