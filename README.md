# Code leaderboard dashboard: interactive components

This project models the interactive logic of the front end of the code
leaderboard web site (a Next.js/React application). It covers five components:

- **Timeline range slider** (`TimelineSlider.tsx`). Two handles pick a start
  date and an end date inside `[minDate, maxDate]`. Dates map linearly to
  track positions from 0 to 100 percent.
  - A dragged handle is clamped so the handles stay ordered.
  - The dragged handle is pushed a calendar month away from the other one.
  - The range is reported to the owner once, when the pointer is released.
  - Seven reference markers (the ends and five evenly spaced dates) divide
    the track. The marker dates around the handles are shown in bold.
- **Model comparison bar chart and radar chart**
  (`ModelComparisonBarChart.tsx`, `ModelComparisonRadarChart.tsx`).
  - Both format metric names.
  - Both keep a per-model visibility map that the legend toggles.
  - Both project data rows onto the visible models.
  - Both choose the value-axis domain from the visible numeric values.
  - The radar chart also shortens its axis labels.
- **Leaderboard header** (`LeaderboardHeader.tsx`):
  - the task title, which capitalises each word;
  - which buttons are shown;
  - how the chart button cycles through the views;
  - the comparison toggle;
  - when the export button exports the chart.
- **Table header** (`TableHeader.tsx`):
  - column widths with their fallbacks;
  - which columns are sortable;
  - the sort indicator;
  - the resize handle;
  - how header labels split into a difficulty and a metric, or into lines.

Dafny modules:

- `Calendar`: the JavaScript date arithmetic the slider relies on. This is
  the ECMAScript day-from-year formula, `getFullYear`/`getMonth`, and
  `new Date(y, m, d)` with month and day rollover and with the
  constructor's reading of a year from 0 to 99 as 1900 plus that year. It adds the month index
  `12 * year + month` and proves that month starts increase strictly.
- `Strings`: `split`, `join` and `replace` with a string pattern (the first
  occurrence only).
- `TimelineSlider`: the slider. The mutable state is the class `RangeSlider`,
  with the dragged handle, the two handle dates and the log of reported
  ranges.
- `ComparisonChart`: the logic shared by the two charts. The two source files hold identical copies of `formatMetricName` and `domainRange`, so each is modelled once.
  - `BarChartView.BarChart` and `RadarChartView.RadarChart` are classes that
    hold the visibility map.
  - The nested loops that collect values are methods proved against
    `VisibleValues`.
- `LeaderboardHeaderView` and `TableHeaderView`: the two headers.

Modelling conventions:

- Dates are integer time values in milliseconds, in UTC.
- Numbers are exact reals.
- Strings are sequences of characters.
- An absent optional prop is an `Option`.

## Model

| member | source | states |
|---|---|---|
| Calendar.DayFromYearStep | src/app/components/ui/TimelineSlider.tsx:52-53 | consecutive year starts are a year's length apart (366 days in Gregorian leap years, else 365), which is what `getFullYear` relies on |
| Calendar.DaysInMonthRange | src/app/components/ui/TimelineSlider.tsx:56-64 | every month has between 28 and 31 days |
| Calendar.MonthStartMonotone | src/app/components/ui/TimelineSlider.tsx:52-64 | month starts strictly increase with the month index |
| Calendar.MakeDayMonthStart | src/app/components/ui/TimelineSlider.tsx:58 | ECMAScript `MakeDay(y, m, d)` is day `d - 1` after the start of month index `12y + m`, for any `m` and `d` (rollover included), so day 0 is the last day of the month before |
| Calendar.ConstructorYear | src/app/components/ui/TimelineSlider.tsx:58 | the `Date` constructor reads a year from 0 to 99 as 1900 plus that year and keeps every other year |
| Calendar.ConstructorMonth | src/app/components/ui/TimelineSlider.tsx:58 | `new Date(y, m, ...)` lands in month index `12y + m`, or 1900 years later when `y` is from 0 to 99 |
| Calendar.NewDate | src/app/components/ui/TimelineSlider.tsx:58 | `new Date(y, m, d)` is day `d - 1` after the start of the month index the constructor gives to `y` and `m` |
| Calendar.MonthIndexOfDay | src/app/components/ui/TimelineSlider.tsx:52-53 | a time whose day lies in month `mi` has month index `mi` |
| Calendar.YearMonthIndex | src/app/components/ui/TimelineSlider.tsx:52-53 | the month index is `12 * getFullYear() + getMonth()`, with `getMonth()` in 0..11 |
| Calendar.SameMonthIndex | src/app/components/ui/TimelineSlider.tsx:52-54 | equal year and equal month if and only if equal month index |
| Calendar.MonthIndexMonotone | src/app/components/ui/TimelineSlider.tsx:52-54 | a later time never has an earlier month index |
| Calendar.MidnightMakeDay | src/app/components/ui/TimelineSlider.tsx:56-64 | midnight of the day `MakeDay(y, m, d)` computes falls `d - 1` days after the start of month index `12y + m` |
| Strings.SplitJoin | src/app/components/sections/Leaderboard/TableHeader.tsx:41 | `split` pieces hold no separator, and `join` of the pieces gives back the string |
| Strings.JoinSplit | src/app/components/sections/Leaderboard/LeaderboardHeader.tsx:81 | splitting the join of separator-free pieces gives back the pieces |
| Strings.ReplaceFirstAbsent | src/app/components/ui/ModelComparisonBarChart.tsx:20-31 | `replace` with no occurrence of the pattern leaves the string unchanged |
| Strings.ReplaceFirstAt | src/app/components/ui/ModelComparisonBarChart.tsx:20-31 | `replace` rewrites the first occurrence of the pattern and only that one, keeping the text before and after it |
| Strings.ReplaceFirstAtStart | src/app/components/ui/ModelComparisonBarChart.tsx:20 | `replace` with the pattern at the start replaces exactly that prefix |
| Strings.ReplaceFirstSkip | src/app/components/ui/ModelComparisonBarChart.tsx:20 | a prefix where the pattern cannot start is kept, and the replacement happens in the rest |
| TimelineSlider.Trunc | src/app/components/ui/TimelineSlider.tsx:36 | a fractional time value becomes the integer next to it toward zero |
| TimelineSlider.DateToPercentage | src/app/components/ui/TimelineSlider.tsx:29-31 | `dateToPercentage`: its contract is stated by `PercentageEnds` (the ends at 0 and 100), `PercentageMonotone` (order kept both ways) and `PercentageRoundTrip` (inverse of `PercentageToDate`) |
| TimelineSlider.PercentageEnds | src/app/components/ui/TimelineSlider.tsx:29-31 | `minDate` sits at 0 percent and `maxDate` at 100 percent |
| TimelineSlider.PercentageMonotone | src/app/components/ui/TimelineSlider.tsx:29-31 | date order and position order agree, in both directions |
| TimelineSlider.PercentageToDate | src/app/components/ui/TimelineSlider.tsx:34-37 | `percentageToDate`: its contract is stated by `PercentageRoundTrip`, `PercentageToDateInRange` (a track position gives a date of the range) and `PointerPastEnds` |
| TimelineSlider.PercentageRoundTrip | src/app/components/ui/TimelineSlider.tsx:26-37 | converting a date to a percentage and back gives the same date |
| TimelineSlider.ClampPercent | src/app/components/ui/TimelineSlider.tsx:78 | the pointer percentage is clamped to [0, 100]: below 0 gives 0, above 100 gives 100, and a value inside is kept |
| TimelineSlider.PointerPastEnds | src/app/components/ui/TimelineSlider.tsx:78-79 | a pointer at or left of the track selects `minDate`, and one at or right of it selects `maxDate` |
| TimelineSlider.PercentageToDateInRange | src/app/components/ui/TimelineSlider.tsx:34-37 | a percentage in [0, 100] gives a date in `[minDate, maxDate]` |
| TimelineSlider.IsSameYearMonth | src/app/components/ui/TimelineSlider.tsx:52-54 | `isSameYearMonth`: its contract is stated by `SameYearMonthIndex` (same year and month exactly when the month numbers agree) |
| TimelineSlider.SameYearMonthIndex | src/app/components/ui/TimelineSlider.tsx:52-54 | `isSameYearMonth` holds if and only if the month indices are equal |
| TimelineSlider.PrevMonthDate | src/app/components/ui/TimelineSlider.tsx:56-59 | `getPrevMonthDate`: its contract is stated by `PrevMonthDateFacts` |
| TimelineSlider.PrevMonthDateFacts | src/app/components/ui/TimelineSlider.tsx:56-59 | the previous-month date is the last day of the month before: month index one less, and its next day starts the reference month; it is earlier. For a year from 0 to 99 all of this holds 1900 years later, so the date is later than the reference |
| TimelineSlider.ShiftedMonthIndex | src/app/components/ui/TimelineSlider.tsx:56-64 | the constructor puts the reference's year and month (and the month after) at the reference's month index, moved 1900 years for a year from 0 to 99 |
| TimelineSlider.NextMonthDate | src/app/components/ui/TimelineSlider.tsx:61-64 | `getNextMonthDate`: its contract is stated by `NextMonthDateFacts` |
| TimelineSlider.NextMonthDateFacts | src/app/components/ui/TimelineSlider.tsx:61-64 | the next-month date is the first day of the following month (1900 years later for a year from 0 to 99): month index one more, on that month's first day, and later in every case |
| TimelineSlider.MoveStart | src/app/components/ui/TimelineSlider.tsx:83-90 | the start-handle branch of `handlePointerMove`: its contract is stated by `MoveStartBounds`, `MoveStartGap` and `MoveStartPastEnd` |
| TimelineSlider.MoveStartBounds | src/app/components/ui/TimelineSlider.tsx:83-90 | with the end handle outside the years 0 to 99, the dragged start stays between `minDate` and the end handle |
| TimelineSlider.MoveStartPastEnd | src/app/components/ui/TimelineSlider.tsx:83-90 | with the end handle in a year from 0 to 99, a start dragged up to the end handle lands after it |
| TimelineSlider.MoveStartGap | src/app/components/ui/TimelineSlider.tsx:83-90 | with the end handle outside the years 0 to 99, the new start is at `minDate` or in an earlier month than the end; it shares the end's month if and only if `minDate` does |
| TimelineSlider.MoveEnd | src/app/components/ui/TimelineSlider.tsx:93-100 | the end-handle branch of `handlePointerMove`: its contract is stated by `MoveEndBounds` and `MoveEndGap` |
| TimelineSlider.MoveEndBounds | src/app/components/ui/TimelineSlider.tsx:93-100 | the dragged end stays between the start handle and `maxDate` |
| TimelineSlider.MoveEndGap | src/app/components/ui/TimelineSlider.tsx:93-100 | the new end is at `maxDate` or in a later month than the start; it shares the start's month if and only if `maxDate` does |
| TimelineSlider.MoveStartIntoEndMonth | src/app/components/ui/TimelineSlider.tsx:83-90 | in a 2023 range, a start dragged past the end (to June 15, end on June 1) is clamped into the end's month and lands on May 31 |
| TimelineSlider.PrevMonthOfJune2023 | src/app/components/ui/TimelineSlider.tsx:56-59 | the previous-month date of June 1, 2023 is May 31, 2023 |
| TimelineSlider.MoveEndIntoStartMonth | src/app/components/ui/TimelineSlider.tsx:93-100 | in a 2023 range, an end dragged into the start's month (March 10, start March 1) lands on April 1 |
| TimelineSlider.NextMonthOfMarch2023 | src/app/components/ui/TimelineSlider.tsx:61-64 | March 1 and March 10, 2023 share a month, and the next-month date of March 1 is April 1 |
| TimelineSlider.InJune2023 | src/app/components/ui/TimelineSlider.tsx:52-53 | any time on a day in June 2023 has year 2023 and month 5 |
| TimelineSlider.InMarch2023 | src/app/components/ui/TimelineSlider.tsx:52-53 | any time on a day in March 2023 has year 2023 and month 2 |
| TimelineSlider.MiddleDate | src/app/components/ui/TimelineSlider.tsx:136-140 | the `i`-th reference date: its contract is stated by `MiddleDateExact` and `MiddleDateBounds` |
| TimelineSlider.MiddleDateExact | src/app/components/ui/TimelineSlider.tsx:136-140 | the `i`-th reference date, computed through days, is the point `i` sixths of the way along the range |
| TimelineSlider.MiddleDateBounds | src/app/components/ui/TimelineSlider.tsx:134-147 | the reference dates lie in the range and are ordered by their index |
| TimelineSlider.SortByPosition | src/app/components/ui/TimelineSlider.tsx:156 | the stable sort by position keeps the length; `SortSorts` states that the output is in position order and a permutation of the input, and `SortSortedIdentity` that sorted input is returned unchanged |
| TimelineSlider.InsertSorted | src/app/components/ui/TimelineSlider.tsx:156 | inserting one marker into markers in position order keeps them in order and adds exactly that marker |
| TimelineSlider.SortSorts | src/app/components/ui/TimelineSlider.tsx:156 | the sorted markers are in position order and are a permutation of the input |
| TimelineSlider.SortSortedIdentity | src/app/components/ui/TimelineSlider.tsx:156 | a stable sort by position leaves markers already in position order unchanged |
| TimelineSlider.AllDateMarkers | src/app/components/ui/TimelineSlider.tsx:150-157 | `allDateMarkers`: its contract is stated by `AllDateMarkersShape` |
| TimelineSlider.AllDateMarkersShape | src/app/components/ui/TimelineSlider.tsx:150-157 | the sorted marker list is the unsorted one: seven markers from `minDate` at 0 to `maxDate` at 100, ordered by position, each at its date's position |
| TimelineSlider.FirstInterval | src/app/components/ui/TimelineSlider.tsx:162-170 | the result is the first interval that holds the position, or none when no interval does |
| TimelineSlider.FindIntervalStart | src/app/components/ui/TimelineSlider.tsx:160-179 | the loop returns the start of the first interval holding the position, else the last marker when at or past it, else the first marker |
| TimelineSlider.FindIntervalEnd | src/app/components/ui/TimelineSlider.tsx:182-201 | the loop returns the end of the first interval holding the position, else the last marker when at or past it, else the second marker (the first if there is only one) |
| TimelineSlider.IntervalCovers | src/app/components/ui/TimelineSlider.tsx:162-170 | on sorted markers, a position from the first marker up to before the last lies in some interval |
| TimelineSlider.IntervalStartBrackets | src/app/components/ui/TimelineSlider.tsx:160-179 | on sorted markers, the start date found for a position belongs to a marker at or before it, and the next marker is after it |
| TimelineSlider.IntervalEndBrackets | src/app/components/ui/TimelineSlider.tsx:182-201 | on sorted markers, the end date found for a position within the track belongs to a marker at or after it, and the marker before is at or before it |
| TimelineSlider.NoIntervalPastLast | src/app/components/ui/TimelineSlider.tsx:172-175 | at or past the last marker no interval holds the position, so the last-marker branch decides |
| TimelineSlider.RangeSlider.constructor | src/app/components/ui/TimelineSlider.tsx:20-22 | no drag in progress, the handles at the given dates, nothing reported |
| TimelineSlider.RangeSlider.PointerDown | src/app/components/ui/TimelineSlider.tsx:67-70 | pressing a handle starts dragging it and changes nothing else |
| TimelineSlider.RangeSlider.PointerMove | src/app/components/ui/TimelineSlider.tsx:73-102 | without a drag nothing changes. Otherwise only the dragged handle moves, by the clamp-and-gap rule. Ordered handles stay ordered within the range (unless the start handle is dragged while the end handle is in a year from 0 to 99), and the moved handle ends at its end of the range or in a different month from the other handle |
| TimelineSlider.RangeSlider.PointerUp | src/app/components/ui/TimelineSlider.tsx:105-131 | ends the drag; if a drag was in progress the handle dates are reported once and then, through the effect that depends on the drag flag, reset to the owner's props; else nothing changes |
| TimelineSlider.RangeSlider.SyncDates | src/app/components/ui/TimelineSlider.tsx:126-131 | new prop dates replace the handle dates only when no drag is in progress |
| TimelineSlider.RangeSlider.MiddleDates | src/app/components/ui/TimelineSlider.tsx:134-147 | the loop builds the five reference markers for `i = 1..5` |
| TimelineSlider.RangeSlider.BoldedDates | src/app/components/ui/TimelineSlider.tsx:204-209 | the bold set holds the start of the start handle's interval and the end of the end handle's interval |
| TimelineSlider.BoldedDatesBracketHandles | src/app/components/ui/TimelineSlider.tsx:204-209 | with ordered handles, the bold start date is a marker at or before the start handle, and the bold end date a marker at or after the end handle |
| ComparisonChart.FormatMetricName | src/app/components/ui/ModelComparisonBarChart.tsx:17-36 | `formatMetricName`: its contract is stated by `FormatDifficultyMetric`, `FormatDifficultyPassAt`, `FormatDifficultyWithoutPass`, `FormatPassMetric` and `FormatOtherMetric` |
| ComparisonChart.FormatDifficultyMetric | src/app/components/ui/ModelComparisonBarChart.tsx:19-27 | `easy_`, `medium_` and `hard_` become `Easy `, `Medium `, `Hard `, and the first `pass@` after them becomes `Pass@` |
| ComparisonChart.FormatDifficultyPassAt | src/app/components/ui/ModelComparisonBarChart.tsx:19-27 | after a difficulty prefix, the first `pass@` becomes `Pass@` wherever it is, and the text before and after it is kept |
| ComparisonChart.FormatDifficultyWithoutPass | src/app/components/ui/ModelComparisonBarChart.tsx:19-27 | after a difficulty prefix, a name without `pass@` only has its prefix spelled out |
| ComparisonChart.FormatPassMetric | src/app/components/ui/ModelComparisonBarChart.tsx:30-32 | a leading `pass@` becomes `Pass@` and the rest is kept |
| ComparisonChart.FormatOtherMetric | src/app/components/ui/ModelComparisonBarChart.tsx:34-35 | any other metric name is kept as it is |
| ComparisonChart.PrefixRewrite | src/app/components/ui/ModelComparisonBarChart.tsx:20 | replacing the prefix and then the first `pass@` rewrites the prefix and the first `pass@` of the rest |
| ComparisonChart.FormatEasyMetric | src/app/components/ui/ModelComparisonRadarChart.tsx:13-32 | the radar chart's copy of the metric-name rewrite behaves the same: `easy_` becomes `Easy ` and the first `pass@` after it becomes `Pass@` |
| ComparisonChart.AllVisible | src/app/components/ui/ModelComparisonBarChart.tsx:55 | the reduced map has exactly the models as keys, all mapped to true |
| ComparisonChart.InitialVisibility | src/app/components/ui/ModelComparisonBarChart.tsx:54-56 | the `activeModels` prop when given, else exactly the models are visible |
| ComparisonChart.Toggled | src/app/components/ui/ModelComparisonBarChart.tsx:119-124 | the map `handleModelToggle` sets: its contract is stated by `ToggleFlipsOnlyItsModel` and `ToggleTwice` |
| ComparisonChart.ToggleFlipsOnlyItsModel | src/app/components/ui/ModelComparisonBarChart.tsx:119-124 | toggling flips the model's visibility (a missing key counts as hidden) and leaves every other key and value unchanged |
| ComparisonChart.ToggleTwice | src/app/components/ui/ModelComparisonBarChart.tsx:119-124 | toggling twice restores every model's visibility, and restores the map itself when the model was a key |
| ComparisonChart.TransformRow | src/app/components/ui/ModelComparisonBarChart.tsx:66-76 | one row of `transformedData`: its contract is stated by `TransformRowKeys` and `UnknownModelHidden` |
| ComparisonChart.TransformRowKeys | src/app/components/ui/ModelComparisonBarChart.tsx:66-76 | a projected row has `name` plus exactly the visible models as keys; each visible model maps to the row's field, and `name` to the metric unless a visible model is called `name` |
| ComparisonChart.UnknownModelHidden | src/app/components/ui/ModelComparisonBarChart.tsx:54-76 | a model with no key in the visibility map (such as one added to `models` while `activeModels` is given) is hidden, and its column is left out of every projected row |
| ComparisonChart.TransformRows | src/app/components/ui/ModelComparisonBarChart.tsx:66-76 | one projected row per data row, in order |
| ComparisonChart.RowValuesMembers | src/app/components/ui/ModelComparisonBarChart.tsx:86-90 | a value is collected from a row if and only if some visible model's field holds that number |
| ComparisonChart.VisibleValuesMembers | src/app/components/ui/ModelComparisonBarChart.tsx:84-91 | a value is collected if and only if some row and some visible model hold that number |
| ComparisonChart.CollectVisibleValues | src/app/components/ui/ModelComparisonBarChart.tsx:84-91 | the outer loop over rows collects exactly the visible numeric values, in order |
| ComparisonChart.CollectRowValues | src/app/components/ui/ModelComparisonBarChart.tsx:86-90 | the inner loop over models collects one row's visible numeric values, in order |
| ComparisonChart.SeqMin | src/app/components/ui/ModelComparisonBarChart.tsx:96 | `Math.min(...values)` is one of the values and at most each of them |
| ComparisonChart.SeqMax | src/app/components/ui/ModelComparisonBarChart.tsx:97 | `Math.max(...values)` is one of the values and at least each of them |
| ComparisonChart.Floor | src/app/components/ui/ModelComparisonBarChart.tsx:108-113 | `Math.floor`: the greatest integer not above the value |
| ComparisonChart.Ceil | src/app/components/ui/ModelComparisonBarChart.tsx:108-114 | `Math.ceil`: the least integer not below the value |
| ComparisonChart.Domain | src/app/components/ui/ModelComparisonBarChart.tsx:93-115 | the domain chosen from the values: its contract is stated by `DomainWithinPercent` and `DomainHoldsValues` |
| ComparisonChart.DomainWithinPercent | src/app/components/ui/ModelComparisonBarChart.tsx:93-115 | the axis domain never goes below 0 or above 100 |
| ComparisonChart.DomainHoldsValues | src/app/components/ui/ModelComparisonBarChart.tsx:93-115 | with values between 0 and 100, every value lies within the chosen domain, in both the narrow and the padded branch |
| ComparisonChart.DomainRange | src/app/components/ui/ModelComparisonBarChart.tsx:79-116 | no data or no models gives [0, 100]; otherwise the domain of the collected visible values |
| ComparisonChart.EmptyDomain | src/app/components/ui/ModelComparisonBarChart.tsx:93 | when no visible numeric value exists, the domain is [0, 100] |
| BarChartView.BarChart.constructor | src/app/components/ui/ModelComparisonBarChart.tsx:54-56 | the visibility starts as the `activeModels` prop, else all models visible |
| BarChartView.BarChart.PropsChanged | src/app/components/ui/ModelComparisonBarChart.tsx:48-63 | new props: the models are replaced; a given `activeModels` replaces the visibility, an absent one leaves it unchanged |
| BarChartView.BarChart.ToggleModel | src/app/components/ui/ModelComparisonBarChart.tsx:119-124 | the toggled model's visibility flips, every other model's stays, and the model list is unchanged |
| BarChartView.BarChart.TransformedData | src/app/components/ui/ModelComparisonBarChart.tsx:66-76 | one projected row per data row, under the current visibility |
| BarChartView.BarChart.Domain | src/app/components/ui/ModelComparisonBarChart.tsx:79-116 | the domain for the current visibility lies within [0, 100] |
| RadarChartView.TickLabel | src/app/components/ui/ModelComparisonRadarChart.tsx:152-155 | formatted names of at most 10 characters are shown whole; longer ones become their first 8 characters and `...` |
| RadarChartView.RadarChart.constructor | src/app/components/ui/ModelComparisonRadarChart.tsx:50-52 | the visibility starts as the `activeModels` prop, else all models visible |
| RadarChartView.RadarChart.PropsChanged | src/app/components/ui/ModelComparisonRadarChart.tsx:44-59 | new props: the models are replaced; a given `activeModels` replaces the visibility, an absent one leaves it unchanged |
| RadarChartView.RadarChart.LegendClick | src/app/components/ui/ModelComparisonRadarChart.tsx:102-107 | the clicked model's visibility flips, every other model's stays, and the model list is unchanged |
| RadarChartView.RadarChart.Domain | src/app/components/ui/ModelComparisonRadarChart.tsx:62-99 | the domain for the current visibility lies within [0, 100] |
| LeaderboardHeaderView.ChartButtonNext | src/app/components/sections/Leaderboard/LeaderboardHeader.tsx:146-154 | the chart button's next view: its contract is stated by `ChartButtonCycle` |
| LeaderboardHeaderView.ChartButtonCycle | src/app/components/sections/Leaderboard/LeaderboardHeader.tsx:146-154 | the chart button cycles table, scatter, code questions with period three; from model comparison it goes to table, and it never selects model comparison |
| LeaderboardHeaderView.ComparisonButtonNext | src/app/components/sections/Leaderboard/LeaderboardHeader.tsx:94 | the comparison toggle's next view: its contract is stated by `ComparisonButtonInvolution` |
| LeaderboardHeaderView.ComparisonButtonInvolution | src/app/components/sections/Leaderboard/LeaderboardHeader.tsx:94 | the comparison toggle always changes the view to table or model comparison, and undoes itself between those two |
| LeaderboardHeaderView.ShownButtons | src/app/components/sections/Leaderboard/LeaderboardHeader.tsx:89-197 | which buttons are shown: its contract is stated by `ComparisonButtonsExclusive` |
| LeaderboardHeaderView.ComparisonButtonsExclusive | src/app/components/sections/Leaderboard/LeaderboardHeader.tsx:89-197 | exactly one of the comparison toggle and the compare button is shown, the toggle if and only if the task is `overall`; the chart export button appears if and only if the view is scatter |
| LeaderboardHeaderView.ExportsChart | src/app/components/sections/Leaderboard/LeaderboardHeader.tsx:31-37 | the export exports the chart if and only if the view is scatter and the chart is mounted |
| LeaderboardHeaderView.ExportFromShownButton | src/app/components/sections/Leaderboard/LeaderboardHeader.tsx:31-37 | a chart export happens only where the chart export button is shown (the scatter view, lines 197-200); there it exports exactly when the chart is mounted |
| LeaderboardHeaderView.UpperChar | src/app/components/sections/Leaderboard/LeaderboardHeader.tsx:81 | upper-casing maps a space, and only a space, to a space |
| LeaderboardHeaderView.Capitalize | src/app/components/sections/Leaderboard/LeaderboardHeader.tsx:81 | capitalising keeps the length and the positions of spaces |
| LeaderboardHeaderView.CapitalizeAll | src/app/components/sections/Leaderboard/LeaderboardHeader.tsx:81 | one capitalised word per word, in order |
| LeaderboardHeaderView.TaskTitle | src/app/components/sections/Leaderboard/LeaderboardHeader.tsx:78-82 | the task title: its contract is stated by `TaskTitleWords` and `TwoWordTitle` |
| LeaderboardHeaderView.TaskTitleWords | src/app/components/sections/Leaderboard/LeaderboardHeader.tsx:78-82 | apart from the two fixed titles, the title has as many words as the task; each word keeps its length, its first letter is upper-cased and the rest is kept |
| LeaderboardHeaderView.TwoWordTitle | src/app/components/sections/Leaderboard/LeaderboardHeader.tsx:81 | a two-word task becomes its two capitalised words joined by a space |
| TableHeaderView.StoredOr | src/app/components/sections/Leaderboard/TableHeader.tsx:84 | `columnWidths[key] \|\| fallback`: the stored width unless missing or 0 |
| TableHeaderView.ColumnWidth | src/app/components/sections/Leaderboard/TableHeader.tsx:82-84 | the model column of the overall task is at least 300: the stored width if at least 300, else 300. Every other column is its stored width or 100 |
| TableHeaderView.ContentBasis | src/app/components/sections/Leaderboard/TableHeader.tsx:144-148 | the stored width when set and not 0; otherwise 250 for code summarization and code review, 350 for vulnerability detection, 300 for other tasks |
| TableHeaderView.HeaderClick | src/app/components/sections/Leaderboard/TableHeader.tsx:108-133 | a click sorts by the column if and only if it is one of the sortable columns |
| TableHeaderView.ResizeStart | src/app/components/sections/Leaderboard/TableHeader.tsx:198-199 | a resize starts on every column except `rank` |
| TableHeaderView.SortIndicator | src/app/components/sections/Leaderboard/TableHeader.tsx:176-192 | the arrow shows if and only if the table is sorted by this column and it is not `rank`; it points in the sort direction |
| TableHeaderView.FormatDifficultyHeader | src/app/components/sections/Leaderboard/TableHeader.tsx:27-54 | a label is shown as difficulty over metric if and only if it starts with `Easy `, `Medium ` or `Hard `; otherwise as lines if and only if it holds a newline; otherwise whole, unchanged |
| TableHeaderView.DifficultySplits | src/app/components/sections/Leaderboard/TableHeader.tsx:29-30 | a label starting with a difficulty word and a space splits into at least two words |
| TableHeaderView.DifficultyHeaderParts | src/app/components/sections/Leaderboard/TableHeader.tsx:29-37 | `Easy m`, `Medium m` and `Hard m`, followed by anything after another space, show the difficulty over the metric `m` |
| TableHeaderView.MultiLineHeader | src/app/components/sections/Leaderboard/TableHeader.tsx:40-51 | any other label with a newline is shown as lines without newlines, which join back to the label |
| TableHeaderView.LabelMinWidth | src/app/components/sections/Leaderboard/TableHeader.tsx:149 | the minimum width is the larger of 60 and 12 per character |

## Left out

- Rendering is not modelled: JSX markup, Tailwind classes, colours, recharts components, tooltips, label-overlap offsets and responsive styles.
- The document-level `pointermove`/`pointerup` listeners (`TimelineSlider.tsx` lines 114-123) are not modelled. The model calls `PointerMove` and `PointerUp` directly, which is what the listeners do while a drag is in progress.
- The slider's pointer geometry is replaced by an input. `getBoundingClientRect` and `clientX` become the raw percentage passed to `PointerMove`, and the check that the slider element exists is dropped.
- The `toLocaleDateString` display formatting of dates (`formatDate`) is not modelled; it produces text only.
- Dates are UTC. The local time zone and daylight saving that `getFullYear`, `getMonth` and `new Date(y, m, d)` use in a browser are not modelled.
- The JavaScript `Date` range limit, invalid dates (NaN) and floating-point rounding are not modelled. Values are exact integers and reals, so the reference dates are exact sixths of the range, truncated toward zero.
- TimelineSlider.RangeSlider.constructor: requires `minDate < maxDate`, because with equal dates the source divides by zero and every position becomes NaN.
- TimelineSlider.RangeSlider.PointerMove: gives the ordering and month-gap guarantees only for a state whose handles are already ordered. From an unordered state it gives only the exact new value. When the start handle is dragged while the end handle is in a year from 0 to 99, it gives no ordering either, because `new Date` then puts the previous-month date 1900 years later (`MoveStartPastEnd`).
- TimelineSlider.MoveStartBounds: holds only with the end handle outside the years 0 to 99, for the same reason.
- TimelineSlider.MoveStartGap: holds only with the end handle outside the years 0 to 99, for the same reason.
- `minDate`/`maxDate` prop changes after mounting are not modelled: they are fixed for the life of a `RangeSlider`.
- ComparisonChart.ToggleTwice: restores the map itself only when the model was already a key. Otherwise the map gains a `false` entry, and only the visibility is restored.
- Chart values are exact reals. Strings in data fields are kept as `Text` values, and non-numeric fields are skipped by the value collection as in the source.
- LeaderboardHeaderView.UpperChar: upper-cases ASCII letters only. Unicode case mapping and UTF-16 code-unit lengths are not modelled.
- The CSV export (`ClientOnlyCSVLink`) and the chart's SVG export itself are not modelled: the model only decides when the chart export is chosen.
- The `isColumnCentered`, `getContentWidth` and sticky-style props of the table header are foreign callbacks and are not modelled. `ContentBasis` gives the width passed to `getContentWidth`.
- TableHeaderView.StoredOr: column widths are integers. The source keeps them as JavaScript numbers, which a resize can make fractional; fractional widths are not modelled, and neither is the rest of the width arithmetic on them (`ColumnWidth`, `ContentBasis`).
- The `handleSort` and resize handlers are passed in as props. The model states which column they receive, not what they do.
- TableCell.tsx, Sidebar.tsx, Header.tsx, Hero.tsx, next.config.js and scripts/clean-cache.js are not part of this model.
