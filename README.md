# Maintenance KPI dashboard — a verified model of its data pipeline

The dashboard (`app.py`) loads a spreadsheet of maintenance work orders
(one row per intervention: start and end timestamps, duration in minutes,
optionally area, equipment id, a failure flag and a maintenance type),
lets the user pick a date range and a scope (the whole plant, one area or
one equipment unit), and shows four KPI cards — availability, MTBF, MTTR
and the number of interventions — and four charts: monthly availability,
the maintenance-type pie, and the monthly MTBF and MTTR trends.

This project models, in Dafny, the computational core of that app:

- **Ingestion** (`Ingest.dfy`): `parse_contents` accepts a file whose name
  contains `xlsx` anywhere, derives `duration_hours = duration_minutes / 60`,
  and otherwise yields the unsupported-format or processing-error message.
- **Scope encoding** (`Scope.dfy`, `Text.dfy`): the dropdown options built
  by `update_data` (imperative, appended in loops) — "ALL", then every
  distinct area in sorted order as `AREA__<name>`, then every distinct
  equipment id as `EQUIP__<id>` — and their decoding in `filter_df` by
  prefix test and `split(prefix)[1]`, which is the text up to the next
  occurrence of the prefix.
- **Filtering** (`Filter.dfy`, on `Sequences.dfy`): `filter_df` as a chain
  of optional boolean masks over the rows, proved equal to one reference
  predicate, order-preserving and idempotent; any two successive mask
  steps can be swapped, so the masks may be applied in any order.
- **KPIs** (`Kpi.dfy`): the period (selected range, or the data span when
  the range is not positive), downtime, availability, MTTR, failure count,
  distinct equipment count and MTBF, each undefined (`None`, shown as
  "N/A") exactly when the code yields NaN.
- **Monthly series** (`Monthly.dfy`, on `Calendar.dfy`): grouping by the
  calendar month of the start timestamp, the monthly availability bars,
  the MTBF and MTTR trends, and the maintenance-type pie rows; the groups
  partition the rows and their sums add up to the totals.
- **The callback** (`Dashboard.dfy`): `update_dashboard` end to end, from
  the upload to placeholders or to the computed cards and charts, and
  worked examples on concrete tables (`Scenarios.dfy`).

Dates follow Python's proleptic Gregorian calendar (`Calendar.dfy`):
day ordinals as `date.toordinal()` computes them, lexicographic date
comparison (proved to agree with ordinal order), seconds within a day for
timestamps, and days-in-month with the leap-year rule.

Notable behaviours of the code, which the model keeps:

- With an empty filtered table, the code shows "N/A" for the intervention
  count too, like every other card; it does not show 0.
- The distinct equipment count falls back to 1 only for an empty table.
  That case is never reached, because the empty table returns earlier.
  A table without an `equipment` column raises KeyError instead.
- `split("AREA__")[1]` keeps only the text up to the next `AREA__` in the
  name, so the round trip through the dropdown is exact only for names
  without the prefix (`Scope.AreaRoundTrip`, `Scope.TruncatedAreaName`).

## Model

| member | source | states |
|---|---|---|
| Ingest.ParseContents | app.py:200-222 | a table is loaded iff the file name contains "xlsx" and the sheet could be read; a name without "xlsx" gives the unsupported-format message whatever the sheet read gave; a read error gives "Error al procesar el archivo: " and the reason; a loaded table is the sheet with hours derived, with the success message naming the file |
| Ingest.DeriveHours | app.py:214-215 | same number of rows; only `duration_hours` changes; every row with minutes gets hours × 60 = minutes; rows without minutes are unchanged |
| Ingest.DeriveHoursKeepsWellFormed | app.py:214-215 | deriving hours keeps a table well formed, and the derived table has an hours column iff it had minutes or hours already (or is empty) |
| Ingest.NameTestIsSubstringTest | app.py:205 | the format test is a substring test: "orders.xlsx.bak" and "xlsx_export.csv" are accepted, "orders.csv" is not |
| Ingest.NoXlsxIn | app.py:205 | a name without the letter 'x' is never accepted |
| Text.BeforeFirst | app.py:236 | the decoded name is a prefix of the text after the scope prefix, no occurrence of the prefix starts inside it, and it is either all of that text or followed by the prefix, so it ends at the first occurrence |
| Text.OccursAfterFirst | app.py:236 | an occurrence past the first character is an occurrence in the rest of the text, one position earlier |
| Text.BeforeFirstIsWholeIff | app.py:236 | `split(sep)[1]` keeps the whole remainder iff the remainder does not contain the separator |
| Scope.Decode | app.py:234-240 | an area selector iff the value starts with "AREA__", an equipment selector iff it starts with "EQUIP__", the whole plant iff the value is missing or has neither prefix ("ALL", empty or unprefixed) |
| Scope.AreaRoundTrip | app.py:235-236 | decoding an encoded area yields the name cut at the first "AREA__", and yields the name itself iff the name does not contain "AREA__" |
| Scope.EquipmentRoundTrip | app.py:238-239 | the same for equipment ids and "EQUIP__" |
| Scope.TruncatedAreaName | app.py:236 | the area "L1AREA__B" is offered but decodes to "L1" |
| Ordering.SortedNames | app.py:272 | `sorted(unique())`: strictly increasing, so without repeats, with exactly the values of the column |
| Scope.AreaNames | app.py:272-273 | no more areas than rows, and an area is listed iff the table has an `area` column and some row is in that area |
| Scope.EquipmentNames | app.py:275-276 | no more units than rows, and an id is listed iff the table has an `equipment` column and some row has that id |
| Scope.AreaNamesListEachAreaOnce | app.py:272-273 | the listed areas are strictly increasing, pairwise distinct, and are exactly the areas some row has (none without the column) |
| Scope.EquipmentNamesListEachUnitOnce | app.py:275-276 | the same for equipment ids |
| Scope.ScopeOptions | app.py:271-277 | the options are the whole-plant option first, then one "Área: " option per listed area in order, then one "Equipo: " option per listed unit in order, and nothing else |
| Filter.Step | app.py:230-240 | an optional mask step selects what the mask selects; an inactive step, whose mask accepts everything, keeps every row |
| Filter.ChainIsConjunction | app.py:229-241 | the start, end and scope masks applied in turn select exactly the rows meeting all three |
| Filter.FilterDf | app.py:225-241 | a missing or empty table gives no rows; otherwise the result is the rows that start on or after the start date, end on or before the end date and match the scope, in their original order (a subsequence), and a row is in it iff it is in the table and meets every active constraint |
| Filter.FilterKeepsRepeats | app.py:229-241 | a row that passes every active mask is kept as many times as it occurs in the table; any other row is dropped |
| Sequences.WhereCounts | app.py:231-240 | boolean-mask indexing keeps each selected element as many times as it occurs and drops every other element |
| Filter.SelectionKeepsScopeColumn | app.py:237-240 | rows selected from a table that has the scope's column still have it |
| Filter.FilterIsIdempotent | app.py:225-241 | filtering the filtered rows again with the same controls changes nothing |
| Filter.StepsCommute | app.py:229-240 | two successive optional mask steps give the same rows in either order, so any order of the masks selects the same rows |
| Sequences.WhereCommutes | app.py:229-240 | two boolean masks applied one after the other select the same elements in either order |
| Filter.ScopeThenDates | app.py:230-240 | filtering by scope first and by dates afterwards gives the same rows as the combined filter |
| Filter.WholePlantKeepsEverything | app.py:234 | without dates, "ALL", an empty, missing or unprefixed scope keeps every row |
| WorkOrders.SelectionKeepsColumns | app.py:229-241 | a non-empty selection of rows is well formed and has each optional column iff the table has it |
| Calendar.DaysInMonth | app.py:341 | every month has 28 to 31 days |
| Calendar.DateOrderIsOrdinalOrder | app.py:231-233 | comparing dates (as the filter does) agrees with comparing their day ordinals (as `.days` does), and dates are equal iff their ordinals are |
| Calendar.HoursInMonthSpansTheMonth | app.py:341 | `days_in_month * 24` is the number of hours from the first of the month to the first of the next month |
| Calendar.LeapFebruary | app.py:341 | February has 29 × 24 hours exactly in leap years (divisible by 4 and not by 100, or by 400) |
| Kpi.RangeHours | app.py:322 | the range in hours is positive iff the start date is before the end date, negative iff it is after, and zero iff they are the same date |
| Kpi.SpanHours | app.py:324 | the data span × 3600 is the largest difference between a row's end and a row's start, in seconds: no such difference exceeds it and one equals it |
| Kpi.SpanHoursPositiveIff | app.py:324 | the fallback span is positive iff some row ends after some row starts |
| Kpi.PeriodHours | app.py:322-324 | the range in hours is positive iff the start date is before the end date; then the period is the range, at least 24 hours; otherwise it is the data span |
| Kpi.FailureRows | app.py:330 | the failure rows are a subsequence of the table (original order kept) holding exactly the rows flagged as failures |
| Kpi.FailureRowsKeepRepeats | app.py:330 | each failure row is kept as many times as it occurs in the table, and no other row is kept |
| Kpi.FailureCount | app.py:333 | the number of failure rows when the `is_failure` column exists, else 0; at most the number of rows; positive iff the column exists and some row is a failure |
| Kpi.Downtime | app.py:326 | the summed `duration_hours` is non-negative when no row has a negative duration |
| Kpi.DowntimeSplitsByFailure | app.py:326-330 | the downtime of the failure rows plus that of the other rows is the total downtime |
| Kpi.EquipmentCount | app.py:334 | the number of distinct equipment ids: the size of the set of values in the `equipment` column, and 0 without it |
| Kpi.EquipmentCountBounds | app.py:334 | a non-empty table with an `equipment` column has between 1 and the number of rows distinct units |
| Kpi.AvailabilityOver | app.py:327 | defined iff the period is positive, and then (1 − availability) × period = downtime |
| Kpi.MtbfOver | app.py:335 | defined iff there are failures, and then MTBF × failures = period × units |
| Kpi.Mttr | app.py:330 | defined iff the failure count is positive, and then MTTR × number of failures = downtime of the failure rows |
| Kpi.ComputeKpis | app.py:319-336 | interventions = row count ≥ 1; availability is defined iff the start date is before the end date or some row ends after some row starts; MTBF and MTTR are each defined iff the failure count is positive; each card is the value of its formula over the period |
| Kpi.AvailabilityBounds | app.py:327 | with non-negative durations availability is at most 1, and it is non-negative iff downtime fits in the period |
| Kpi.MttrWithinRepairTimes | app.py:330 | MTTR lies between any lower and upper bound of the failure rows' repair times |
| Monthly.RowsIn | app.py:340 | a month's group is exactly the rows starting in that month |
| Monthly.Months | app.py:339-340 | the group keys are in increasing month order and are exactly the months some row starts in |
| Monthly.MonthsAreDistinct | app.py:340 | no month is listed twice |
| Monthly.EachRowInExactlyOneMonth | app.py:339-340 | every row's month is listed, and the row is in a month's group iff that is its month |
| Monthly.MonthHasRow | app.py:340 | no listed month has an empty group |
| Monthly.GroupsConserve | app.py:340 | over distinct months, the group sums add up to the sum over the rows in those months |
| Monthly.MonthlySumsConserve | app.py:340 | the monthly sums add up to the sum over the whole table |
| Monthly.MonthAvailability | app.py:342 | (1 − availability) × hours in month = downtime; at most 1 for non-negative downtime; non-negative iff the downtime fits in the month |
| Monthly.MonthBar | app.py:340-342 | a month's bar carries the month, the downtime of its group, the month's `days_in_month * 24` hours, and (1 − availability) × hours = downtime |
| Monthly.AvailabilityBars | app.py:339-342 | one bar per listed month in order, with that month's downtime, `days_in_month * 24` hours and (1 − availability) × hours = downtime |
| Monthly.BarsConserveDowntime | app.py:340 | the bars' downtimes add up to the table's downtime |
| Monthly.MonthMtbf | app.py:386 | defined iff the month has failures, and then MTBF × failures = hours in month × units |
| Monthly.MtbfSeries | app.py:384-386 | one point per month with failures, in order, with that month's failure count, its hours and its MTBF |
| Monthly.MtbfTrend | app.py:383-391 | a trend exists iff there is an `is_failure` column, and then it is the series over the failure rows |
| Monthly.MtbfAlwaysDefined | app.py:384-386 | every point has at least one failure, so the NaN replacement never applies and every MTBF is defined |
| Monthly.FailuresAddUp | app.py:384 | the monthly failure counts add up to the failure count of the KPI card |
| Monthly.MttrSeries | app.py:405 | one point per month with failures, in order, whose group is non-empty and whose value is the mean repair time of that group |
| Monthly.MttrTrend | app.py:404-410 | a trend exists iff there is an `is_failure` column, and then it is the series over the failure rows |
| Monthly.MonthlyMttrWithinRepairTimes | app.py:405 | each monthly MTTR lies between any bounds of the failure rows' repair times |
| Monthly.PieRows | app.py:362-363 | a pie exists iff there is a `maintenance_type` column; its rows are, in order, exactly the rows of type Correctivo, Preventivo or Predictivo |
| Monthly.PieRowsKeepRepeats | app.py:363 | each row of the three types is kept in the pie as many times as it occurs in the table, and no other row is kept |
| Monthly.TypeCount | app.py:363-365 | a slice's size is the number of rows of that type, repeats included (the sum of the type's 0/1 indicator over the rows); it is at most the number of rows and positive iff some row has that type |
| Sequences.WhereLengthCounts | app.py:363-365 | the number of elements a mask selects is the sum of its 0/1 indicator |
| Monthly.PieSlicesAddUp | app.py:363-365 | the three slices' counts add up to the rows of the pie |
| Dashboard.LoadedTable | app.py:304-310 | a table is available iff a file is uploaded, its name contains "xlsx" and it reads, and it is the table with hours derived |
| Dashboard.UpdateDashboard | app.py:302-422 | placeholders iff nothing is loaded or the filter keeps no rows; otherwise the KPI inputs hold, the cards are the KPIs of the filtered rows with interventions = row count ≥ 1, and the charts are the monthly bars, pie rows and trends of the filtered rows (with the KPI block's equipment count) |
| Dashboard.FilteredRowsKeepColumns | app.py:362-404 | when rows survive the filter, they have the `is_failure` and `maintenance_type` columns iff the loaded table does |
| Dashboard.OfferedAreaSelectsRows | app.py:273 | every offered area whose name has no "AREA__" selects at least one row |
| Dashboard.OfferedEquipmentSelectsRows | app.py:276 | every offered unit whose id has no "EQUIP__" selects at least one row |
| Dashboard.CsvUploadShowsPlaceholders | app.py:308-310 | "orders.csv" is rejected as unsupported and the dashboard shows placeholders |
| Scenarios.JuneIs720Hours | app.py:322 | a range from June 1 to July 1 is 720 hours |
| Scenarios.JuneUploadLoads | app.py:214-217 | the uploaded 60, 120 and 180 minutes become 1, 2 and 3 hours |
| Scenarios.JuneFilterKeepsAll | app.py:225-241 | June's range and "ALL" keep all three rows |
| Scenarios.JuneInputs | app.py:319-326 | the loaded June table has rows, the hours and equipment columns and both valid bounds |
| Scenarios.JuneTotals | app.py:326-333 | the June rows have 6 h of downtime and no failures, since there is no `is_failure` column |
| Scenarios.JuneKpis | app.py:319-336 | downtime 6 h, availability 1 − 6/720, no MTBF or MTTR, 3 interventions |
| Scenarios.ThreeInterventionsInJune | app.py:302-336 | the same cards end to end from the upload of "orders.xlsx" |
| Scenarios.MttrOfTwoFailures | app.py:330 | failures of 2 h and 4 h around a 5 h non-failure give MTTR 3 h |
| Scenarios.TwoUnitsCounts | app.py:333-334 | two failure rows on "P1" and "P2" count 2 failures and 2 distinct units |
| Scenarios.MtbfOfTwoUnits | app.py:333-335 | two units and two failures over June give MTBF 720 h |

## Left out

- Reading the upload: the `data:` URL split, base64 decoding and `pd.read_excel` (app.py:201-207) are a parameter. The model receives either the sheet's rows or a read error with its text.
- A malformed upload payload is not modelled. The `data:` URL split and the base64 decoding (app.py:201-202) come before the `try`, so the app raises there and shows neither message. The model's read error stands only for failures inside the `try` (app.py:207-215).
- `pd.to_datetime` (app.py:210-213, 231-233): timestamps arrive parsed, as a date plus seconds into the day. An unparseable date is one of the read errors. Sub-second precision and time zones are not modelled.
- Missing `start_datetime` or `end_datetime` columns: every row has both timestamps.
- NaN cells inside a present column, and area or equipment values that are not strings. An optional column is either present in every row or absent from every row.
- `is_failure` values other than booleans: a row counts as a failure exactly when its flag is `True`.
- Floating point: durations and KPI values are exact reals, so rounding is not modelled.
- Presentation is not modelled: the layout (app.py:17-196), figure construction and styling, the pie colours, the titles of the placeholder charts, and the number formatting of the cards (app.py:328, 331, 336). The model returns the values each card or chart is drawn from.
- `update_data`'s minimum and maximum dates for the date picker (app.py:280-281), its status messages, the reset of the scope to "ALL" and its display styles (app.py:258-285). Only its scope options are modelled.
- The module-level empty table (app.py:15) and `print(e)` (app.py:221) have no effect on the outputs.
- Calls that raise are preconditions (`Dashboard.Computable`, `Kpi.KpiInputs`, `Filter.FilterDf`), because the app has no handler for them. These are: a missing range bound when some row survives the filter (the subtraction at app.py:322); a missing `area` or `equipment` column for an area or equipment scope (app.py:237, 240); and a missing `duration_hours` or `equipment` column in the KPI block (app.py:326, 334).
- Kpi.ComputeKpis: its own contract states when each card is defined and names the formula function for each value. The arithmetic facts are the contracts of `Kpi.AvailabilityOver`, `Kpi.MtbfOver` and `Kpi.Mttr`.
- Monthly.MtbfSeries: each point's MTBF is stated as `Monthly.MonthMtbf` of its hours and failures. The product with the failure count is that function's contract.
- Monthly.MttrSeries: each point's value is stated as the mean of its group. MTTR × count = downtime is the contract of the mean, and the bounds are `Monthly.MonthlyMttrWithinRepairTimes`.
