# checkin-viz scoring core, modelled in Dafny

checkin-viz runs a weekly fitness check-in challenge. Participants send one check-in per
day, naming a *tier* (`T0`, `T1`, …), and the application turns the stored rows into
scores and pictures:

- a tier label becomes points under rule set 1 (a table) or rule set 2 (a formula);
- a challenge's running total sums, per participant and week, the five best day scores;
- a single week becomes a heat map of seven cells (Monday to Sunday) per participant,
  with the participant's count of days and capped points, and four achievements for
  the week: earliest and latest time of day, "first to five" and the highest tier;
- smaller rules: the Monday-to-Monday bounds of a numbered week, the "five check-ins
  this week" test, the day a mulligan fills in, the count of check-ins possible so far,
  the grouping of challenge weeks by challenge, and the browser-side helpers that group
  rows, sort them by weekday, build per-week heat maps and find the latest date.

The model works on rows as already fetched: the database, the clock and calendar
lookups are parameters.

Modules, one per source concern:

- `Wrappers`: `Option`, `Result` and `Error`, the exceptions the Python and TypeScript
  raise (an index past the end, which in `getLatestDate` is the TypeError of reading a
  cell of `undefined`, a bad `int()` literal, a missing dict key, a date
  out of range, subscripting `None`, an unparseable instant).
- `Weekdays`: the seven weekday names in Monday-first order.
- `Sorting`: stable sort by a comparison (Python `sorted`/`list.sort` with a key, and
  JavaScript `Array.prototype.sort` with a comparator).
- `Runs`: `itertools.groupby`, as maximal runs of equal keys.
- `Text` and `Clock`: Python string order, and `strftime("%H:%M")` on minutes.
- `RuleSets`: `src/rule_sets.py`.
- `CheckinRows`: the grouping by participant shared by both heat-map builders.
- `Chart`: one participant's scan in `week_heat_map_from_checkins`.
- `HeatMap`: the whole of `week_heat_map_from_checkins`.
- `MainApp`: `src/main.py`.
- `Mulligan`: `src/mulligan.py`.
- `BaseQueries`: `src/base_queries.py`.
- `DataFormatting`: `src/app/dataFormatting.ts`.

Points are exact integers counted in tenths. Rule set 1 gives 0, 0, 10, 12, 15 and 10
for other labels. Rule set 2 gives 9 + n. With integers, `round(..., 4)` is the identity
and there is no floating point left.

Times are whole minutes on the local clock. An "HH:MM" string is represented by its
minute of the day: `Clock.HourMinuteOrder` proves that the zero-padded strings compare
the same way as the minutes.

Where the written description of the system and the code differ, the model follows the
code:

- `calculate_total_score` on a challenge without rows raises `IndexError`, because it
  reads `rule_set` from row 0. It does not return an empty map.
- "First to five" in `week_heat_map_from_checkins` does not look at the bye-week flag or
  the tier. Any day with a time, once the running count passes four, competes.

## Model

| member | source | states |
|---|---|---|
| RuleSets.LStripT | src/rule_sets.py:40 | `tier.lstrip("T")`: the result is a suffix of the input, does not start with 'T', and every dropped character is 'T' |
| RuleSets.ParseShowNat | src/rule_sets.py:40 | `int()` reads back every decimal numeral: parsing the digits of n gives n |
| RuleSets.Version1Score | src/rule_sets.py:23-35 | rule set 1 scores lie in 0..15; a score is 0 exactly for "T0" and "T1", and 10 exactly for labels outside T0, T1, T3, T4 (the fallback shares T2's value) |
| RuleSets.Version1OfSmallLabel | src/rule_sets.py:23-35 | the table T0→0, T1→0, T2→10, T3→12, T4→15 (tenths) |
| RuleSets.Version1DropsAfterT4 | src/rule_sets.py:33-35 | under rule set 1, T5 scores less than T4, and every label Tn with n ≥ 5 falls back to 10 |
| RuleSets.Version2Score | src/rule_sets.py:37-43 | "T0" is 0; any other tier fails, naming the stripped text, exactly when the text left after stripping leading 'T's is not an optional sign followed by decimal digits, and otherwise scores 9 plus that number |
| RuleSets.Score | src/rule_sets.py:18-21 | rule set 1 never fails, and "T0" is 0 under every rule set |
| RuleSets.ScoreDispatch | src/rule_sets.py:18-21 | rule set 1 scores by the fixed table, and every other version (0, 2, 3, …) by rule set 2 |
| RuleSets.Version2OfLabel | src/rule_sets.py:37-43 | rule set 2 gives Tn the value 9 + n for n ≥ 1, and "T0" gives 0 |
| RuleSets.Version2ZeroPadded | src/rule_sets.py:38-40 | only the exact label "T0" is 0: "T00" gives 9, "TT3" gives 12 (all leading 'T's are stripped), and "T" fails `int()` |
| RuleSets.Version2StrictlyIncreasing | src/rule_sets.py:40-41 | rule set 2 is strictly increasing in the tier number |
| RuleSets.Version2NonNegative | src/rule_sets.py:37-43 | a rule set 2 label without a minus sign that scores at all scores 0 or at least 9 |
| RuleSets.TierOrderThroughT4 | src/rule_sets.py:18-43 | under either rule set, a higher tier up to T4 never scores less |
| RuleSets.SumPermutation | src/rule_sets.py:73-78 | a sum does not depend on the order of its values, so sorting before summing changes nothing |
| RuleSets.TopFiveKeepsLargest | src/rule_sets.py:74-77 | `sorted(..., reverse=True)[:5]` keeps min(5, n) values, keeps or drops each input value exactly once, and no dropped value exceeds a kept one |
| RuleSets.TopFiveSum | src/rule_sets.py:73-78 | with at most five values the capped sum is the full sum; for non-negative values it lies between 0 and the full sum |
| RuleSets.TopFiveSumBound | src/rule_sets.py:73-78 | the capped sum is at most min(5, n) times the largest value |
| RuleSets.ScoreAll | src/rule_sets.py:58-66 | the list comprehension scores every row in order; it fails exactly when some row's tier fails to score |
| RuleSets.TotalScore | src/rule_sets.py:56-82 | no rows is `IndexError`; the total succeeds exactly when every row scores under row 0's rule set, and then its keys are exactly the names in the rows |
| RuleSets.WeeksOfOrderedRows | src/rule_sets.py:53-68 | when rows come ordered by week id, each `groupby` run holds exactly that week's rows and no week has two runs |
| RuleSets.AbsentWeekContributesNothing | src/rule_sets.py:70-81 | a week in which a participant has no row adds 0 to their total |
| RuleSets.WeekContributionBound | src/rule_sets.py:72-79 | one week adds at most 5 times the participant's best score that week |
| RuleSets.CumulativeWithoutCap | src/rule_sets.py:70-82 | when no week has more than five values for a participant, their total is the plain sum of all their values |
| RuleSets.CumulativeAtMostUncapped | src/rule_sets.py:70-82 | for non-negative scores, a total lies between 0 and the uncapped sum of the participant's values |
| RuleSets.TotalScoreVersion1Bound | src/rule_sets.py:56-82 | under rule set 1, every total lies between 0 and 15 times the number of rows |
| RuleSets.SingleWeek | src/rule_sets.py:68 | rows all of one week form a single group |
| RuleSets.TotalOfThreeDays | src/rule_sets.py:56-82 | three identical day rows give their participant three times the day's score, and no one else appears |
| Sorting.SortBy | src/chart.py:338 | the stable sort keeps length and contents (a permutation) |
| Sorting.SortBySorted | src/chart.py:338 | the sort's result is ordered by the comparison |
| Sorting.SortByLast | src/app/dataFormatting.ts:77-78 | the last element after sorting is one of the input's, and every element may precede it |
| Runs.GroupRuns | src/base_queries.py:54-56 | `itertools.groupby`: the runs concatenate back to the input, are non-empty, share one key each, neighbouring runs differ in key, and the first run starts with the first element |
| Runs.RunsOfClustered | src/chart.py:351-355 | when equal keys are contiguous, each run is exactly the filter of its key and no key has two runs |
| Runs.SortByKeepsKeyOrder | src/chart.py:351 | a sort that ties all rows of one key keeps those rows in input order (stability) |
| Runs.KeyFilterMembers | src/chart.py:352-355 | a key's filter holds exactly the elements with that key, and is empty exactly when none has it |
| Text.StrLeTotal | src/chart.py:351 | Python string order is total |
| Text.StrLeTransitive | src/chart.py:351 | Python string order is transitive |
| Clock.MinuteOfDay | src/chart.py:394 | a time's minute of the day lies in 0..1439 |
| Clock.HourMinute | src/chart.py:394 | `strftime("%H:%M")` is five characters with ':' in the middle |
| Clock.ClockBounds | src/chart.py:363-364 | the starting values "00:00" and "23:59" are the first and last minute of the day |
| Clock.HourMinuteOrder | src/chart.py:396-402 | comparing two "HH:MM" strings agrees with comparing their minutes of the day |
| CheckinRows.NameLeTotalPreorder | src/chart.py:351 | sorting by name is a total preorder that ties rows of one name |
| CheckinRows.DayLeTotalPreorder | src/chart.py:337-338 | sorting by weekday index is a total preorder that ties rows of one day |
| CheckinRows.SortByWeekday | src/chart.py:337-338 | the weekday sort keeps the same rows, as a permutation (its order is stated by `SortByWeekdaySpec`) |
| CheckinRows.SortByWeekdaySpec | src/chart.py:337-338 | `sortCheckinByWeekday` gives a permutation ordered Monday to Sunday that keeps each day's rows in input order |
| CheckinRows.MatchIndex | src/chart.py:376-383 | the `next(...)` search returns the first index whose row has the weekday, or -1 exactly when none has |
| CheckinRows.FirstRowOfDay | src/chart.py:371-383 | after the weekday sort, a day's first match is the first of that day's input rows, and -1 exactly when the day has none |
| CheckinRows.LatestIndex | src/chart.py:368 | the chosen row is a latest one, and the first of the latest ones |
| CheckinRows.LastCheckinIsLatest | src/chart.py:368 | `sorted(..., key=time, reverse=True)[0]` picks that first latest row |
| CheckinRows.Put | src/chart.py:352-355 | a dict assignment adds the key, keeps every other entry and its position, sets the key's value and keeps keys distinct |
| CheckinRows.DictOfDistinctRuns | src/chart.py:352-355 | runs with distinct keys become one dict entry each, in run order |
| CheckinRows.NameGroupsOfSorted | src/chart.py:351-355 | after the name sort, the dict has one entry per name in the rows, holding exactly that name's rows in input order |
| CheckinRows.WithRosterKeeps | src/chart.py:357-361 | adding the roster keeps every existing entry in place and appends only empty entries for roster names |
| CheckinRows.WithRosterNames | src/chart.py:357-361 | after adding the roster, the names are those of the rows plus the roster |
| CheckinRows.AddRoster | src/chart.py:359-361 | the roster loop computes exactly that dict |
| CheckinRows.Participants | src/chart.py:351-361 | every roster name and every name in the rows has an entry |
| CheckinRows.ParticipantsSpec | src/chart.py:351-361 | every roster name and every name in the rows has exactly one entry, which holds exactly that name's rows |
| CheckinRows.GroupByName | src/chart.py:351-361 | sorts the caller's array by name in place and returns the participant dict of the original rows |
| Chart.CellOfDay | src/chart.py:375-417 | cell i is weekday i; y is 0 exactly when the participant has no row that day; `checkedIn` holds exactly when y ≠ 0; time and tier are those of the day's first row |
| Chart.CountCheckedDays | src/chart.py:403-421 | `totalCheckins` is the number of weekdays on which the participant has a row |
| Chart.CountCheckedIsCount | src/chart.py:403 | the running count is the number of checked-in cells so far |
| Chart.ByeWeekScoresNothing | src/chart.py:412-423 | when every row is a bye week or has no tier, nothing is scored and the points are 0 |
| Chart.Version1WeekPoints | src/chart.py:412-423 | under rule set 1, a participant's points lie in 0..7.5 |
| Chart.Version1PointScores | src/chart.py:412-414 | under rule set 1 no score fails; after n days at most n scores were collected, each in 0..15 |
| Chart.PointScoresFailLater | src/chart.py:413 | once a score raises, the scan ends with that error |
| Chart.EarliestLatestBounds | src/chart.py:363-402 | `earliest` and `latest` bound every time of day seen, only move outward, and are a seen time unless unchanged |
| Chart.FirstToFiveEarliest | src/chart.py:404-411 | "first to five" is None exactly when it started None; it only moves to a strictly earlier time of a day where the count has passed four, and then names this participant |
| Chart.HighestIsFirstMaximum | src/chart.py:366-416 | the highest tier is at least every score seen; if it changed, it is the first day reaching it, strictly above where it started (ties keep the first) |
| Chart.TallyNext | src/chart.py:375-417 | how one more day changes each of the cells, count, scores and achievements |
| Chart.VisitDay | src/chart.py:376-417 | one turn of the weekday loop takes the scan after i days to the scan after i + 1, failing exactly as scoring that day fails |
| Chart.ScanParticipant | src/chart.py:371-424 | the weekday loop for one participant computes the specified scan of their weekday-sorted rows |
| Chart.ScanOf | src/chart.py:371-424 | a participant's scan that succeeds gives a row of their name with seven cells |
| Chart.ScanOfParts | src/chart.py:418-424 | a participant's row holds the seven cells, their count and the five-best sum, and fails exactly when a score fails |
| HeatMap.ScanGroups | src/chart.py:370-425 | the loop over participants computes the specified week scan |
| HeatMap.WeekScanOk | src/chart.py:370-425 | the week scan fails exactly when some participant's scoring fails |
| HeatMap.WeekScanRows | src/chart.py:370-425 | one heat-map row per participant, in dict order, each that participant's scan |
| HeatMap.WeekScanBounds | src/chart.py:363-402 | across all participants, `earliest` and `latest` bound every time of day and are seen times unless unchanged |
| HeatMap.WeekScanFirstToFive | src/chart.py:365-411 | across all participants, "first to five" is no later than any qualifying day; unless unchanged, it is a participant's name with the time of one of their qualifying days |
| HeatMap.WeekScanHighest | src/chart.py:366-416 | across all participants, the highest tier is at least every score, and unless unchanged it is the first score in scan order to reach its value |
| HeatMap.WeekHeatMapFromCheckins | src/chart.py:341-426 | sorts the caller's rows by name in place and returns the specified heat map, latest date and achievements |
| HeatMap.WeekHeatMap | src/chart.py:341-426 | a failing score is the result's error; without a latest row the result is an error; a result carries the latest row's time |
| HeatMap.WeekHeatMapOk | src/chart.py:343-426 | the result is an error exactly when a score fails or the latest-check-in query found no row (`None[0]`), and otherwise carries that row's time |
| HeatMap.WeekHeatMapRows | src/chart.py:352-424 | one row per distinct name of the rows and the roster, each built from exactly that name's rows |
| HeatMap.InitialFirstToFive | src/chart.py:365-369 | "first to five" starts None exactly when there are no rows, otherwise at a latest row's name and time |
| HeatMap.WeekHeatMapAchievements | src/chart.py:363-416 | the returned achievements satisfy the bounds, "first to five" and highest-tier properties from their starting values |
| HeatMap.Version1HeatMap | src/chart.py:412-426 | under rule set 1 the heat map fails only on a missing latest row, and every participant's points lie in 0..7.5 |
| MainApp.GetStartEndDates | src/main.py:18-30 | a year outside 1..9999, or a week whose start or end leaves the date range, is `DateOutOfRange`; otherwise week n starts n - 1 weeks after the first Monday and ends 7 days later |
| MainApp.WeekdayOf | src/main.py:23 | `weekday()` of a date ordinal is in 0..6, Monday 0 |
| MainApp.Jan1Steps | src/main.py:20 | January 1 ordinals: year 1 starts on Monday ordinal 1, and each year adds 365 or 366 days by the Gregorian leap rule |
| MainApp.FirstMondayIsMonday | src/main.py:20-24 | the first week starts on January 1 if that is a Monday, otherwise on the next Monday, 0 to 6 days later, with no Monday skipped |
| MainApp.WeekIsMondayToMonday | src/main.py:27-30 | `end_date` is exactly 7 days after `start_date`, and both are Mondays inside the date range |
| MainApp.FirstWeekStart | src/main.py:20-27 | week 1 of years 1 to 9999 is in range and starts at the first Monday on or after January 1 |
| MainApp.ConsecutiveWeeks | src/main.py:27-28 | week n + 1 starts where week n ends |
| MainApp.WeeksOfYearInRange | src/main.py:18-30 | weeks 1 to 53 of years 1 to 9998 never overflow the date range |
| MainApp.DbCellAgrees | src/main.py:214-235 | a cell of the database builder agrees with the checkin builder's cell, without the tier |
| MainApp.DbCellOfDay | src/main.py:214-235 | cell i is weekday i; y is 0 exactly when the participant has no row that day; `checkedIn` holds exactly when y ≠ 0; the time is the day's first row's |
| MainApp.AssembleCells | src/main.py:213-235 | the inner weekday loop computes the seven specified cells |
| MainApp.AssembleRows | src/main.py:209-236 | the participant loop builds one row per dict entry, in order |
| MainApp.DbHeatMap | src/main.py:168-238 | a week out of range fails first with `DateOutOfRange`, then a missing latest row with the `None[0]` error; a result has one row per participant and the latest row's time |
| MainApp.WeekHeatMapFromDb | src/main.py:168-238 | returns the specified heat map and latest date; a date failure leaves the rows untouched, and otherwise the rows end sorted by week, then by name, whether or not a latest row exists |
| MainApp.DbHeatMapRows | src/main.py:178-238 | succeeds exactly when the week is in range and a latest row exists; then one row per distinct name of the rows and the roster, each with the cells of exactly that name's rows |
| MainApp.EarlierOfSorted | src/main.py:210-222 | in weekday-sorted rows, a day's first match index is the number of rows on earlier days |
| MainApp.FifthDayCell | src/main.py:226-243 | a cell's y is at least 5 exactly when the participant has a row that day and at least four rows on earlier days of the week |
| MainApp.FiveCheckinsThisWeek | src/main.py:241-244 | fewer than seven cells raise `IndexError`; otherwise true exactly when the cell of Friday, Saturday or Sunday has y ≥ 5 |
| MainApp.FiveCheckinsMeaning | src/main.py:241-244 | `fiveCheckinsThisWeek` holds exactly when Friday, Saturday or Sunday has a row with at least four rows before it in the week |
| Mulligan.DayTable | src/mulligan.py:23-32 | the day table maps each weekday name to its `%w` number (Sunday 0, Monday 1, …), and fails exactly on a name that is not a weekday |
| Mulligan.DayNumbersDistinct | src/mulligan.py:23-31 | no two weekdays share a number |
| Mulligan.FindDate | src/mulligan.py:21-34 | an unknown day name is a `KeyError`; otherwise it fails exactly when `strptime` rejects the week and day number, and a found date is that calendar date at 12:00 |
| Mulligan.DaysOfWeek | src/mulligan.py:70-78 | the list names the seven weekdays Monday first |
| Mulligan.DaysNotCheckedInSpec | src/mulligan.py:105-110 | the missing days are exactly the weekdays not checked in, in Monday-to-Sunday order |
| Mulligan.MulliganDay | src/mulligan.py:98-126 | the chosen day is a weekday not checked in, every earlier weekday is checked in, and the check-in has the text "MULLIGAN T1 checkin", tier T1, the time `find_date` gives for that day (12:00), and the first row's challenger, week and challenge |
| Mulligan.InsertMulliganFor | src/mulligan.py:98-126 | succeeds exactly when there are rows, some weekday is not checked in and `find_date` of the first such day succeeds; no rows is an `IndexError`; a mulligan is a T1 check-in on that first missing day, dated by `find_date` at 12:00, for the first row's challenge week and challenge |
| Mulligan.MulliganFailures | src/mulligan.py:98-113 | no rows is an `IndexError`, and so is a week with all seven days checked in |
| BaseQueries.PossibleSoFar | src/base_queries.py:34-39 | the result is the prior count plus 1 to 5 |
| BaseQueries.PossibleSoFarByDay | src/base_queries.py:37-39 | Monday adds 1; Friday, Saturday and Sunday add 5; each day from Tuesday to Friday adds one more than the day before |
| BaseQueries.ChallengeWeeks | src/base_queries.py:47-56 | the groups concatenate back to the rows, are non-empty, each of one challenge, and neighbouring groups are of different challenges |
| BaseQueries.ChallengeWeeksOfContiguous | src/base_queries.py:54-56 | when each challenge's weeks are contiguous, each group holds all of its challenge's weeks and no challenge has two groups |
| DataFormatting.IndexOf | src/app/dataFormatting.ts:39-41 | `indexOf` gives the first matching position, or -1 when nothing matches |
| DataFormatting.BucketIndex | src/app/dataFormatting.ts:21 | a key's bucket is found at its first position, or past the end when it has none |
| DataFormatting.GroupBy | src/app/dataFormatting.ts:18-24 | the `reduce` loop computes the specified buckets |
| DataFormatting.BucketsGrouped | src/app/dataFormatting.ts:18-24 | every bucket is non-empty and holds exactly the rows with its key, in input order; keys are distinct; every row's key has a bucket; bucket sizes sum to the row count |
| DataFormatting.Rank | src/app/dataFormatting.ts:28 | `weekdays.indexOf` of a row's day cell is -1..6, and a non-negative rank names that weekday |
| DataFormatting.SortCheckinByWeekday | src/app/dataFormatting.ts:26-30 | the array ends as the stable sort of its old contents by weekday rank, Monday first and unknown labels (rank -1) before Monday |
| DataFormatting.WeekdaySortSpec | src/app/dataFormatting.ts:26-30 | the sorted rows are a permutation of the input, in ascending weekday rank |
| DataFormatting.FindDay | src/app/dataFormatting.ts:61 | `findIndex` gives the first row whose day cell is the weekday, or -1 when none is |
| DataFormatting.HeatCellsSpec | src/app/dataFormatting.ts:60-68 | seven cells; cell i is weekday i; y is 0 exactly when no row names that day; `checkedIn` exactly when y ≠ 0; a non-zero y points at a row of that day with only earlier days before it |
| DataFormatting.PersonRowsSpec | src/app/dataFormatting.ts:43-69 | one entry per distinct name, every row's name listed, each entry's cells built from exactly that name's rows |
| DataFormatting.WeekMapSpec | src/app/dataFormatting.ts:43-70 | each week bucket becomes the map entry of its week number, and only those weeks appear |
| DataFormatting.FirstBadTimeSpec | src/app/dataFormatting.ts:32-42 | the search for an unparseable time finds none exactly when every row's time parses |
| DataFormatting.DataToHeatmapData | src/app/dataFormatting.ts:36-72 | the only failure is `Temporal.Instant.from` throwing on a time text that does not parse |
| DataFormatting.HeatmapSpec | src/app/dataFormatting.ts:36-72 | `dataToHeatmapData` fails exactly when some time does not parse; otherwise every row's week is a key, and each week holds the per-person cells of exactly that week's rows |
| DataFormatting.GetLatestDate | src/app/dataFormatting.ts:74-79 | sorts the array in place by time and returns the specified latest date |
| DataFormatting.LatestDate | src/app/dataFormatting.ts:74-79 | `IndexOutOfRange` exactly on an empty sheet; otherwise the time cell of one of the rows |
| DataFormatting.LatestDateIsLatest | src/app/dataFormatting.ts:74-79 | fails exactly on an empty row list; otherwise returns the time cell of one of the rows, and no row's time is later |

## Left out

- Database access: every SQL or peewee query, the inserts and updates, and the
  per-day `Max(tier)` collapse done in SQL. The fetched rows are inputs.
- Rendering (SVG, PNG, `checkin_chart`, the React components), HTTP routes, webhook
  signatures, caching, the scheduler, `green.py` and network fetches. None of it takes
  part in scoring.
- Floating point. Points are exact tenths, so `round(..., 4)` is the identity and float
  noise is not modelled.
- Calendar and clock services are parameters: `datetime.now()` (the year in `find_date`,
  the weekday in `total_possible_checkins_so_far`), `strptime("%Y %W %w")`,
  `strftime("%W")` (`getWeekNumber` in `src/main.py`), Temporal's `weekOfYear` and the
  `Date` parse.
- Time zones. `at time zone 'America/New_York'` and the check-in's `tz` are not
  interpreted; a time is minutes on the local clock.
- Python `int()` accepts only an optional sign and ASCII digits here. Surrounding
  whitespace, underscores between digits and non-ASCII digits are not modelled.
- The Python builders take a row's weekday from the seven names. A label outside them
  would make `weekdays.index` raise; that case is not modelled. The TypeScript side
  keeps labels as strings, so an unknown label ranks -1 there, as `indexOf` does.
- `grouped_by_weeks` (src/main.py:191-196) is computed and never used, so it is not
  modelled. The week sort before it is modelled, since it fixes row order.
- JavaScript object keys: integer-like keys enumerate in ascending order, before other
  keys. The model keeps insertion order, so the order of a map's entries is not stated;
  `DataFormatting.WeekMap` is a `map`.
- `timedelta` overflow is folded into `DateOutOfRange`, as is `datetime(year, 1, 1)` for
  a year outside 1..9999.
- Logging.
- The mulligan's database write and the `challenger_challenges` update. The model
  returns the check-in that would be written (`Mulligan.MulliganWrite`).
- The `text` column fetched by `week_heat_map_from_db`, which the heat map does not use.
- RuleSets.Version2Score: two failures of CPython are not modelled. `int()` raises
  `ValueError` on a numeral of more than 4300 digits, and `0.1 * number` raises
  `OverflowError` once the number is too large for a float (about 309 digits). The
  model scores such tiers as 9 plus the number.
- DataFormatting.TimeOrder: the `Date` parse is a total map from a time cell to a
  number. In JavaScript a missing or unparseable time cell gives `NaN`, the comparator
  then returns `NaN`, and the sort's order (so the row `getLatestDate` reads) is left to
  the engine. Sheets that mix such cells with parseable ones are not modelled.
- DataFormatting.Push: a name cell equal to a property of `Object.prototype`
  ("constructor", "toString", "__proto__", …) finds a non-array value in the `{}`
  accumulator, and `.push` throws a `TypeError`. The model opens a new bucket instead.
- DataFormatting.LatestDateIsLatest: does not say which of several rows with the same
  latest time is returned. `DataFormatting.GetLatestDate` does fix it, as the last row
  of the stable sort.
- DataFormatting.SortCheckinByWeekday: returns nothing. The TypeScript function returns
  the same array it sorted, and the caller only reads that array.
