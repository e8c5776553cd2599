# Weight calendar — a Dafny model of its client-side core

The application logs one body weight (with an optional memo) per calendar
day, shows the records on a month calendar, aggregates them into daily,
weekly and monthly charts and summary cards, and keeps a target weight and
height from which it derives a BMI. This project models the logic behind
those views, as pure functions over immutable values:

- `optional.dfy`, `numbers.dfy`, `text.dfy`, `dates.dfy` — shared pieces:
  `Option`, the one-decimal rounding `Math.round(x * 10) / 10` over exact
  reals, JavaScript floor/ceil, sums and extrema, decimal digit strings and
  `padStart`, code-unit string order, `join`/`split`, and a proleptic
  Gregorian calendar (day numbers, weekdays, week starts, month arithmetic
  with `setMonth` overflow, `YYYY-MM-DD` text).
- `records.dfy` — the record and settings shapes, the outcome of fetching a
  record list, and the stable date sort every view applies.
- `chart.dfy` — `formatChartData` of the statistics chart: the last seven
  daily records, or weekly/monthly buckets keyed by week start or month, the
  mean of each bucket rounded to one decimal, the last four or six buckets,
  and the y-axis bounds.
- `stats.dfy` — the statistics page: the 7-day, 28-day and 6-month windows
  before "now", the summary cards (average, max, min, change, latest), the
  trend icon and the distance to the target weight.
- `profile.dfy` — the settings page: prefilling and saving the profile
  fields, the target BMI and its category, and the CSV export.
- `calendar.dfy` — the calendar's date→record index: merging a fetched
  month, saving, deleting, selecting a day, and decorating day tiles.
- `entry_form.dfy` — the weight entry modal: prefill, the save and delete
  guards, memo normalisation and when the modal closes.
- `weights_route.dfy` — the `/api/weights` route: the month range of a GET,
  the newest-first listing, and POST validation, memo normalisation and
  upsert on the date.

Dates are modelled as calendar days (`Date`, a valid year-month-day triple
with a four-digit year); JavaScript `Date` instants enter only as "now", a
day plus a fraction of a day. Weights are exact reals. The store, the
network, the clock and `Number#toString`/`parseFloat` are parameters.

## Model

| member | source | states |
|---|---|---|
| Numbers.Round1 | src/app/stats/page.tsx:96-99 | the rounded value is a whole number of tenths within half a tenth of the input, ties going up |
| Numbers.Round1Monotone | src/components/stats-chart.tsx:69 | rounding to one decimal never reverses the order of two values |
| Numbers.Round1Positive | src/app/stats/page.tsx:171 | a value rounds to a positive number exactly when it is at least 0.05 |
| Numbers.Round1Negative | src/app/stats/page.tsx:119 | a value rounds to a negative number exactly when it is below -0.05 |
| Numbers.MeanBetween | src/app/stats/page.tsx:84-86 | the mean of a non-empty list lies between its minimum and maximum |
| Numbers.SumBounds | src/app/stats/page.tsx:84 | a sum of values between two bounds lies between the count times each bound |
| Numbers.JsFloor | src/components/stats-chart.tsx:112 | `Math.floor` gives the greatest integer not above the value |
| Numbers.JsCeil | src/components/stats-chart.tsx:113 | `Math.ceil` gives the least integer not below the value |
| Numbers.Max | src/app/stats/page.tsx:85 | `Math.max(...ws)` is an element of the list and no element exceeds it |
| Numbers.Min | src/app/stats/page.tsx:86 | `Math.min(...ws)` is an element of the list and no element is below it |
| Text.DigitsOrder | src/app/api/weights/route.ts:16-18 | zero-padded digit strings of one width compare as strings exactly as their numbers compare |
| Text.PadDecimalTwo | src/app/api/weights/route.ts:16 | `String(m).padStart(2, "0")` of a number below 100 is its two digits |
| Text.SplitJoin | src/app/settings/page.tsx:100-107 | splitting a newline-joined list of lines without newlines gives back the lines |
| Dates.WeekStart | src/components/stats-chart.tsx:50-53 | the week start of a day is a Sunday on or before it, less than seven days earlier |
| Dates.WeekStartIsLatestSunday | src/components/stats-chart.tsx:52 | no Sunday on or before the day comes after its week start |
| Dates.WeekStartMonotone | src/components/stats-chart.tsx:49-53 | later days never have earlier week starts |
| Dates.ShiftMonths | src/app/stats/page.tsx:69-70 | moving a date by whole months lands on the same day of the target month when that day exists, and otherwise rolls over by the overshoot (one to three days) into the following month |
| Dates.DayNumberCompare | src/app/stats/page.tsx:48-50 | day numbers are equal exactly for equal dates and ordered exactly as the dates are |
| Dates.MonthIndexMonotone | src/components/stats-chart.tsx:77-79 | a later day never falls in an earlier month |
| Dates.IsoDateOrder | src/app/settings/page.tsx:96-98 | comparing two `YYYY-MM-DD` texts as strings compares the dates |
| Dates.WeekdayAnchors | src/components/stats-chart.tsx:52 | the weekday numbering puts 1970-01-01 on Thursday and 2024-01-07 on Sunday, as `getDay` does |
| Records.SortByDate | src/app/stats/page.tsx:48-50 | the sorted list is ordered by date in the requested direction and is a permutation of the input |
| Records.Insert | src/components/stats-chart.tsx:31-33 | inserting into a sorted list keeps it sorted and adds exactly that element |
| Chart.FormatChartData | src/components/stats-chart.tsx:28-97 | the series is empty exactly when the input is, and holds at most 7, 4 or 6 points for daily, weekly, monthly |
| Chart.DailySeries | src/components/stats-chart.tsx:31-43 | the daily series is the last seven records in ascending date order, each with its own day and unchanged weight |
| Chart.DailyOrder | src/components/stats-chart.tsx:35-36 | daily points run in ascending date order and the last one is the newest record's day |
| Chart.GroupKeyMonotone | src/components/stats-chart.tsx:50-53 | a later record never gets an earlier week or month key |
| Chart.GroupKeysDistinct | src/components/stats-chart.tsx:55-57 | grouping creates at most one bucket per key |
| Chart.GroupCountsEveryRecord | src/components/stats-chart.tsx:49-60 | the bucket counts add up to the number of records grouped |
| Chart.GroupTotals | src/components/stats-chart.tsx:58-59 | each bucket's count and total are the number and the sum of the weights of the records with its key |
| Chart.GroupAscending | src/components/stats-chart.tsx:62-63 | grouping date-sorted records yields buckets in strictly ascending key order, the last holding the newest key |
| Chart.MembersPermutation | src/components/stats-chart.tsx:31-33 | reordering the records does not change how many fall under a key nor the sum of their weights |
| Chart.BucketSeries | src/components/stats-chart.tsx:62-71 | weekly and monthly bars have strictly ascending keys and each weight is the rounded mean of exactly the records sharing that key |
| Chart.BucketCoverage | src/components/stats-chart.tsx:62-63 | every record either has a bar for its key, or is older than the first kept bar while all four weekly or six monthly places are taken |
| Chart.BucketNewestKept | src/components/stats-chart.tsx:62-63 | the newest record's key is never dropped: no record has a key after the last bar |
| Chart.YAxis | src/components/stats-chart.tsx:109-113 | the axis bounds lie two units beyond the extreme weights, rounded outward, and no further than three |
| Chart.BarsInsideAxis | src/components/stats-chart.tsx:112-113 | every bar lies strictly inside the axis |
| Stats.KeepSince | src/app/stats/page.tsx:55-57 | the filter keeps exactly the records on or after the cutoff, with their multiplicities |
| Stats.KeepSinceSorted | src/app/stats/page.tsx:48-57 | filtering a sorted list keeps it sorted |
| Stats.FilterWindow | src/app/stats/page.tsx:44-74 | the window is sorted newest first and holds exactly the records at or after the period's cutoff |
| Stats.DailyWindow | src/app/stats/page.tsx:52-57 | a record is in the daily window when it is under seven days old, or exactly seven when "now" is midnight |
| Stats.WeeklyWindow | src/app/stats/page.tsx:60-65 | a record is in the weekly window when it is under 28 days old, or exactly 28 when "now" is midnight |
| Stats.MonthlyWindow | src/app/stats/page.tsx:68-73 | a record is in the monthly window when it is after the same day six months back, or on it when "now" is midnight |
| Stats.MonthlyWindowRollOver | src/app/stats/page.tsx:68-73 | when that day does not exist, the window starts the overshoot's number of days into the following month |
| Stats.CalculateStats | src/app/stats/page.tsx:78-102 | an empty window gives all zeros; otherwise the average, maximum and minimum are the rounded mean, largest and smallest weight, min ≤ average ≤ max, and the latest weight is that of a newest record |
| Stats.ConstantWindowStats | src/app/stats/page.tsx:83-95 | a window of equal weights shows that weight, rounded, as average, maximum and minimum |
| Stats.ChangeIsNewestMinusOldest | src/app/stats/page.tsx:88-93 | the change is the rounded difference between the newest and the oldest record's weight |
| Stats.SingleRecordStats | src/app/stats/page.tsx:83-100 | one record gives its rounded weight as average, max and min, and no change |
| Stats.ChangeDirection | src/app/stats/page.tsx:117-121 | the trend is up exactly for a positive change, down for a negative one, flat for zero |
| Stats.DirectionOfWindow | src/app/stats/page.tsx:117-121 | the trend is up exactly when the newest weight exceeds the oldest by at least 0.05, down when it is more than 0.05 below |
| Stats.CardValue | src/app/stats/page.tsx:171 | a card shows its value exactly when it is positive, otherwise a dash |
| Stats.EmptyWindowShowsDashes | src/app/stats/page.tsx:79-80 | an empty window shows dashes on every card, a flat trend and no goal card |
| Stats.GoalDelta | src/app/stats/page.tsx:217-222 | the goal card appears exactly when a nonzero target is set and the latest weight is positive, and shows the rounded distance |
| Stats.GoalDeltaSign | src/app/stats/page.tsx:222 | the distance shown is positive exactly when the latest weight is at least 0.05 above the target |
| Stats.PageRecords | src/app/stats/page.tsx:21-33 | the records are replaced only when both requests succeed and the records body is an array |
| Stats.FailedLoadShowsZeros | src/app/stats/page.tsx:21-36 | a failed records or settings load, or a non-array body, leaves every summary value zero |
| Profile.FieldRoundTrip | src/app/settings/page.tsx:33-34 | prefilling a field from a value and reading it back gives the value, and the other way round |
| Profile.Prefill | src/app/settings/page.tsx:27-40 | a loaded body prefills both fields with its values; a thrown fetch leaves them empty |
| Profile.SavePayload | src/app/settings/page.tsx:51-54 | an empty field is saved as null and a filled one as its number |
| Profile.SaveUntouchedForm | src/app/settings/page.tsx:33-54 | saving an untouched form writes back the settings it was prefilled from |
| Profile.CalculateBmi | src/app/settings/page.tsx:71-77 | there is a BMI exactly when both fields hold positive numbers, and it is the rounded weight over height in metres squared |
| Profile.BmiMonotoneInWeight | src/app/settings/page.tsx:76 | for one height a heavier target never gives a smaller BMI |
| Profile.BmiAntitoneInHeight | src/app/settings/page.tsx:73-76 | for one target a taller height never gives a larger BMI |
| Profile.IndexPositive | src/app/settings/page.tsx:76 | a positive weight and height give a positive index |
| Profile.Category | src/app/settings/page.tsx:79-84 | each category holds exactly the BMIs between its thresholds 18.5, 23 and 25 |
| Profile.CategoryMonotone | src/app/settings/page.tsx:79-84 | a larger BMI never falls in a lower category |
| Profile.ShownBmi | src/app/settings/page.tsx:130-131 | the card appears exactly for a nonzero BMI, with that BMI's category |
| Profile.BmiCardShown | src/app/settings/page.tsx:71-77 | the BMI card appears exactly when both fields are positive and the index rounds to at least 0.1 |
| Profile.CsvRow | src/app/settings/page.tsx:103-106 | a row is the date text, a comma, the weight text, a comma, and the memo (or nothing) between double quotes |
| Profile.ExportCsv | src/app/settings/page.tsx:86-98 | a thrown fetch fails, a non-array or empty body has no data, otherwise the file starts with the byte-order mark |
| Profile.CsvLines | src/app/settings/page.tsx:96-109 | the file after its mark splits into the header and one row per record, in oldest-first order |
| Profile.CsvRowsAscending | src/app/settings/page.tsx:96-98 | the rows' date texts run in ascending string order |
| Calendar.RecordMap | src/components/calendar-view.tsx:28-31 | every record's day is a key of the map, and each key holds a record of that day from the response |
| Calendar.RecordMapLastWins | src/components/calendar-view.tsx:29-31 | within one response the last record of a day is the one kept |
| Calendar.MergeFetched | src/components/calendar-view.tsx:27-36 | a non-array body or a thrown fetch leaves the index unchanged; a merge keeps every earlier day and adds every fetched day |
| Calendar.MergeTakesResponse | src/components/calendar-view.tsx:32 | after a merge, a fetched day holds the response's last record of that day |
| Calendar.MergeKeepsOthers | src/components/calendar-view.tsx:32 | after a merge, a day absent from the response keeps exactly what it had |
| Calendar.MergeIdempotent | src/components/calendar-view.tsx:32 | merging the same response twice gives the index one merge gave |
| Calendar.Save | src/components/calendar-view.tsx:62-72 | a successful save sets the day to the returned record and adds only that day; a failure re-throws and leaves the index unchanged |
| Calendar.SaveOnlyTouchesItsDay | src/components/calendar-view.tsx:67 | a save changes no other day |
| Calendar.SaveThenSelect | src/components/calendar-view.tsx:67 | after a successful save, selecting the day shows the saved record |
| Calendar.Delete | src/components/calendar-view.tsx:81-94 | a successful delete removes only the day; a failure re-throws and leaves the index unchanged |
| Calendar.DeleteOnlyTouchesItsDay | src/components/calendar-view.tsx:85-89 | a delete changes no other day and leaves its own day empty when it succeeds |
| Calendar.DeleteAbsent | src/components/calendar-view.tsx:85-89 | deleting a day the index lacks leaves the index equal |
| Calendar.DeleteIdempotent | src/components/calendar-view.tsx:85-89 | a second delete of the same day changes nothing |
| Calendar.SaveThenDeleteRestores | src/components/calendar-view.tsx:67-89 | saving a new day and then deleting it restores the index |
| Calendar.Select | src/components/calendar-view.tsx:49 | selecting yields the day's record exactly when the index has the day |
| Calendar.ClickDate | src/components/calendar-view.tsx:45-51 | a day click selects the day, opens the modal and looks its record up; any other value changes nothing; the index never changes |
| Calendar.TileWeight | src/components/calendar-view.tsx:97-108 | a tile shows a weight exactly when its day is in the index, and it is that record's weight |
| Calendar.TileClass | src/components/calendar-view.tsx:111-123 | " has-record" leads the class exactly for a day with a record, " is-today" ends it exactly for today, and nothing else is in it |
| Calendar.TileClassCases | src/components/calendar-view.tsx:111-123 | the class is one of "", " has-record", " is-today" and " has-record is-today", chosen by the two conditions |
| Calendar.TileAgreesWithSelect | src/components/calendar-view.tsx:97-123 | a tile shows a weight exactly when it is marked as having a record and exactly when selecting it finds one |
| EntryForm.Prefill | src/components/weight-input-modal.tsx:37-45 | with a record the fields hold its weight text and its memo or ""; without one both are empty |
| EntryForm.MemoArgument | src/components/weight-input-modal.tsx:65 | an empty memo is passed as absent, any other as itself |
| EntryForm.HandleSave | src/components/weight-input-modal.tsx:60-70 | no call without a day or with an empty weight; otherwise one call, the modal closing only if it resolves and loading cleared either way |
| EntryForm.HandleDelete | src/components/weight-input-modal.tsx:72-82 | no call without a day or a record; otherwise one call, closing only if it resolves and loading cleared either way |
| EntryForm.EnabledSaveCalls | src/components/weight-input-modal.tsx:135-138 | an enabled save button pressed on a selected day always reaches the save handler |
| EntryForm.ShownDeleteCalls | src/components/weight-input-modal.tsx:121-131 | a shown delete button pressed on a selected day always reaches the delete handler |
| EntryForm.PrefilledSaveSendsRecord | src/components/weight-input-modal.tsx:37-65 | saving an untouched prefilled form sends back the record's weight and its memo, an empty memo as absent |
| EntryForm.BlankFormGuards | src/components/weight-input-modal.tsx:41-44 | a form prefilled without a record cannot save and shows no delete button |
| EntryForm.SaveClosesOnlyOnSuccess | src/components/weight-input-modal.tsx:64-69 | wired to the calendar, the modal closes exactly when the server accepted the save, and the index is unchanged when it stays open |
| EntryForm.DeleteClosesOnlyOnSuccess | src/components/weight-input-modal.tsx:76-81 | wired to the calendar, the modal closes exactly when the day left the index, and the index is unchanged when it stays open |
| WeightsRoute.DateTextOrder | src/app/api/weights/route.ts:18 | date texts, valid or not, compare as strings in year, month, day order |
| WeightsRoute.MonthRange | src/app/api/weights/route.ts:15-18 | there is a range exactly when year and month are both non-empty, from day "01" to day "31" of one prefix |
| WeightsRoute.MonthRangeText | src/app/api/weights/route.ts:16-17 | for a four-digit year and a month 1–12 the bounds are the texts of day 1 and day 31 of that month |
| WeightsRoute.MonthRangeIsMonth | src/app/api/weights/route.ts:16-18 | a date is inside the range exactly when it falls in the requested year and month |
| WeightsRoute.KeepInRange | src/app/api/weights/route.ts:18 | the filter keeps exactly the records inside the range, with their multiplicities |
| WeightsRoute.Listing | src/app/api/weights/route.ts:13-18 | the listing is newest first and holds all rows, or exactly those in the range |
| WeightsRoute.Get | src/app/api/weights/route.ts:5-28 | a store error gives a 500 with its message; otherwise a 200 with the listing |
| WeightsRoute.GetMonth | src/app/api/weights/route.ts:5-28 | a month's listing holds exactly that month's records, newest first |
| WeightsRoute.StoredMemo | src/app/api/weights/route.ts:49 | a missing or empty memo is stored as null, any other as itself |
| WeightsRoute.Upsert | src/app/api/weights/route.ts:42-52 | the date's row takes the new values and keeps its creation time; every other row is unchanged |
| WeightsRoute.Post | src/app/api/weights/route.ts:33-62 | a falsy date or a missing weight gives 400 before the store; a store error gives 500; otherwise 201 with the stored row, stamped with the request time as `updated_at`; an existing row keeps its creation time and a new one is created at the request time; no other key is added and every other row is unchanged |
| WeightsRoute.HandlePost | src/app/api/weights/route.ts:31-33 | a body that cannot be read ends the request uncaught with the table untouched; a readable one is handled by `Post`, and only a valid body with no store error changes the table |
| WeightsRoute.ZeroWeightAccepted | src/app/api/weights/route.ts:35 | a weight of zero passes validation |
| WeightsRoute.PostExistingDateKeepsSize | src/app/api/weights/route.ts:42-52 | posting an existing date updates it and adds no row |
| WeightsRoute.PostNewDateAddsOne | src/app/api/weights/route.ts:42-52 | posting a new date adds exactly one row |
| WeightsRoute.PostIdempotent | src/app/api/weights/route.ts:42-52 | posting the same body twice leaves the table as one post did |

## Left out

- Time zones and `toISOString`: days are calendar days, and the model keys weeks, months and calendar tiles by the calendar day itself. The source mixes UTC and local time. A record's `date` text parses as UTC midnight, but the chart reads it with local `getDate`/`getDay`/`getMonth`. West of UTC that is the previous day, so a week key becomes a Monday and a record dated the 1st falls into the previous month. East of UTC the chart's keys are right. The calendar turns local midnights into UTC text with `toISOString`, so its day keys move back a day east of UTC instead.
- Locale labels (`toLocaleDateString`), icons, colours, toasts, dialogs, the file download and the `recharts` components are rendering only.
- Floating point: weights are exact reals. `Math.round(x * 10) / 10` is modelled on exact values, and `Number#toString`/`parseFloat` are parameters (`fmt`, `parse`).
- Async interleaving: each fetch, save and delete is one atomic transition. Overlapping responses and the loading flags of the pages are not modelled.
- The unimplemented data-reset handler of the settings page shows a notice and changes nothing.
- The settings route, the store client and its environment checks, and the icon script are not part of this model. Navigation, layout and the `[date]` route are not part of it either.
- The chart's target-weight reference line is not modelled: it draws a line and computes nothing.
- The summary's `latest` value is left unrounded, as the code does. Average, max, min and change are rounded.
- Stats.MonthlyWindow: stated only when the day six months back exists; `Stats.MonthlyWindowRollOver` states the other case. Neither covers a "now" in the first half of year 1, which is outside the four-digit years a `date` holds.
- Profile.CsvLines: stated only for memos and number texts without a newline. The memo is quoted but not escaped, so a memo with a newline or a quote gives a file that does not split back into one row per record.
- WeightsRoute.MonthRangeIsMonth: stated for four-digit years and a month sent as its decimal text, as the calendar sends them. The store compares the bounds as text here; a `date` column would instead reject "-31" for a shorter month.
- WeightsRoute.Post: takes the body already read; a body that cannot be read is the case of `WeightsRoute.HandlePost`. `updated_at` is a parameter (`now`). Whether a `null` weight is accepted is the store's business; the route passes it on.
