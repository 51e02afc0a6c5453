# Guiana Space Centre dashboard — a Dafny model of its data core

`Dashboard.py` is a Streamlit dashboard for the Guiana Space Centre (CSG).
Its class `GuyaneAerospatialeDashboard` holds four tables:

- the launcher catalog (Ariane 5, Ariane 6, Vega, Vega C, Soyuz);
- a table of 100 simulated missions;
- a monthly launch-traffic series;
- a client market table.

Every refresh may append one planned mission. The views compute their figures from these tables:

- key metrics;
- a filtered and sorted mission calendar;
- launches per year and per (year, launcher);
- a launcher × orbit crosstab;
- a COVID before/after comparison;
- per-launcher success-rate and technical tables;
- a year list for the 2030 projection.

This project models that data core in Dafny and proves what it guarantees.

- Every random draw is an explicit input, and so is `datetime.now()`. A draw's stated range (for example `randint(200, 299)`) is a precondition of the generator that consumes it.
- The generators and the per-launcher loops are methods with loops. Each is proved equal to a specification function, and the properties are then proved about that function.
- `update_live_data` is a method of the class `DashboardSession`. It changes the mission table in place.
- The aggregations are functions, with lemmas about them.
- `pandas` filters, `groupby` and `crosstab` are modelled by a small generic library (module `Tally`). It provides row selection, column counts, grouping with sorted keys and a stable sort. Each comes with conservation lemmas.

Modules, one concept each:

| module | file | models |
|---|---|---|
| `Wrappers` | wrappers.dfy | the optional value `Option` |
| `Calendar` | calendar.dfy | dates, day numbers and day arithmetic (`timedelta(days=…)`), chronological order |
| `Tally` | tally.dfy | counting, selecting, grouping and sorting rows |
| `Text` | text.dfy | the string order of text keys |
| `Launchers` | launchers.dfy | the launcher catalog |
| `Missions` | missions.dfy | mission records, the start-up generator, the live mission |
| `Traffic` | traffic.dfy | the monthly traffic series |
| `Clients` | clients.dfy | the client market table |
| `Aggregation` | aggregation.dfy | metrics, calendar filter, group-bys, crosstab, COVID ratios, per-launcher tables |
| `Projection` | projection.dfy | the historical / projected year series |
| `Dashboard` | dashboard.dfy | the session object and `update_live_data` |

Notes on the model:

- **Status texts.** "Succès", "Échec", "Succès partiel" and "Planifié" are the enumeration values `Success`, `Failure`, `PartialSuccess` and `Planned`.
- **Sort order of text keys.**
  - Launcher names and orbit names are enumerations.
  - Each has a rank that is proved to agree with the code-point order of the source strings (`NameRankIsAlphabetical`, `OrbitRankIsAlphabetical`).
  - `pandas` sorts group and crosstab keys in that order.
- **Dates.** A date is a (year, month, day, second-of-day) record. `Instant` maps it to an integer timeline, and `InstantIsChronological` proves that mapping faithful to calendar order. Comparing two timestamps is then comparing two integers.

## Model

| member | source | states |
|---|---|---|
| Launchers.DefineLaunchers | Dashboard.py:88-151 | five entries in key order A5, A6, Vega, Vega C, Soyuz; each has exactly one of a GEO and an SSO capacity, a positive LEO capacity, a success rate in [0,100] and a non-negative flight count |
| Launchers.Lookup | Dashboard.py:88-151 | the entry stored under a key is in the catalog and carries that key |
| Launchers.CatalogKeysAreDistinct | Dashboard.py:90-150 | no key occurs twice, so the catalog is a mapping |
| Text.AscendingOrder | Dashboard.py:431-434 | in a list of names ascending neighbour by neighbour, an earlier position holds a smaller name and different positions hold different names |
| Launchers.NameRankIsAlphabetical | Dashboard.py:431-434 | the launcher rank orders keys exactly as string comparison of their names does, and is injective |
| Missions.OrbitRankIsAlphabetical | Dashboard.py:562 | the orbit rank orders orbits exactly as string comparison of their names does |
| Missions.DrawStatus | Dashboard.py:168-171 | never "Planifié"; "Succès" iff the first roll exceeds 0.1; "Échec" iff it does not and the weighted roll falls in the 0.7 share |
| Missions.ThreeDigitsRoundTrip | Dashboard.py:174 | the decimal digits written into an id read back as the number drawn |
| Missions.MissionId | Dashboard.py:174 | an id is the prefix followed by three decimal digits that read back as the number drawn |
| Missions.MissionIdShape | Dashboard.py:174 | an id is one of the allowed prefixes followed by a number within the drawn range |
| Missions.MissionFromDraw | Dashboard.py:161-184 | the row's date is the drawn day at midnight, its launcher the drawn catalog key, its mass the drawn mass, and it is "Succès" exactly when the first roll exceeds 0.1 |
| Missions.DrawnMissionIsGenerated | Dashboard.py:161-184 | a drawn row has a valid calendar date in [2002,2025] with day at most 28, is never planned, has mass in [100,10000], an id prefix in {VA,VV,VS,AR} with number in [200,299] and a client from the mission client list |
| Missions.InitializeMissions | Dashboard.py:153-186 | exactly 100 rows, row i built from draw i, every row satisfies the generator's bounds |
| Missions.IdentifiersMayRepeat | Dashboard.py:174 | two rows drawn with the same id draws but different masses are different rows with the same id: ids are not unique |
| Missions.PlannedMission | Dashboard.py:257-268 | status "Planifié", dated exactly the drawn number of days (1 to 180) after now at the same time of day, strictly after now, launcher in {Vega, Vega C, Ariane 5}, mass in [1000,5000], id "VV" + [230,250] |
| Missions.WellFormedFacts | Dashboard.py:153-186 | a generated or live row has a valid date, a mass in [100,10000] and a client from the mission client list |
| Calendar.DaysInMonth | Dashboard.py:190 | 28 to 31 days; 29 exactly in February of a leap year |
| Calendar.InstantIsChronological | Dashboard.py:260 | the timeline order of two dates is their calendar order, and equal instants mean equal dates |
| Calendar.YearLength | Dashboard.py:260 | a year has 366 days when it is a leap year and 365 otherwise, so day numbers count calendar days |
| Calendar.NextDay | Dashboard.py:260 | a valid date one day number later, strictly later, same time of day, with no valid date of that time of day strictly between |
| Calendar.AddDays | Dashboard.py:260 | adding n days gives a valid date exactly n day numbers later, strictly later when n > 0, same time of day, never in an earlier year |
| Traffic.MonthEnds | Dashboard.py:190 | the month ends from January 2002 up to now, consecutive months starting at 2002-01 |
| Traffic.MonthEndsAreNotAfterNow | Dashboard.py:190 | every listed month end is at or before now |
| Traffic.MonthEndsAreComplete | Dashboard.py:190 | every month end from 2002 on that is at or before now is listed |
| Traffic.BaseCadence | Dashboard.py:199-210 | cadence between 1 and 7, and 1 for Ariane 6 |
| Traffic.MonthlyLaunches | Dashboard.py:213 | `max(0, int(base/12*u))` is non-negative, and 0 exactly when base/12*u < 1 |
| Traffic.MonthlyLaunchesIsZero | Dashboard.py:213 | with cadence at most 7 and u at most 1.2 the monthly count is always 0 |
| Traffic.MonthEndsAreDistinct | Dashboard.py:190 | no month end is listed twice |
| Traffic.TrafficRow | Dashboard.py:195-221 | a row exists iff the year is not before the first flight and not before 2022 for Vega C; satellites and mass are the drawn factors times the launch count |
| Traffic.VegaCGateIsRedundant | Dashboard.py:205-207 | Vega C's first flight is 2022, so its extra gate skips nothing the first-flight gate keeps |
| Traffic.AppendMonthRows | Dashboard.py:194-221 | the inner loop appends exactly that month's rows |
| Traffic.InitializeTraffic | Dashboard.py:188-224 | the result is the series specification; every row respects the gates, has zero launches, satellites and mass, and belongs to a listed month |
| Traffic.MonthRows | Dashboard.py:195-221 | a month has no more samples than there are launchers in the list |
| Traffic.MonthRowsLaunchers | Dashboard.py:195-221 | each sample of a month is dated that month and belongs to a launcher of the list |
| Traffic.MonthRowsUnique | Dashboard.py:195-221 | with distinct launchers, no two samples of a month share a launcher |
| Traffic.TrafficSeries | Dashboard.py:193-222 | the series has no more samples than five per month, the number of catalog launchers |
| Traffic.TrafficSeriesMonths | Dashboard.py:193-222 | every sample is dated one of the listed months |
| Traffic.TrafficSeriesUnique | Dashboard.py:193-222 | over distinct months, no two samples share a month and a launcher |
| Traffic.SampleIsUnique | Dashboard.py:193-222 | over the month ends, any sample for a pair that passes the gates is that pair's own drawn sample: each such pair has exactly one sample |
| Traffic.TrafficSeriesOk | Dashboard.py:193-221 | every row of the series respects the first-flight and Vega C gates and has zero counts |
| Traffic.TrafficSeriesComplete | Dashboard.py:193-221 | every (month, launcher) pair that passes the gates has its row |
| Traffic.SatellitesTotalIsZero | Dashboard.py:301 | the "satellites launched" total over such rows is 0 |
| Clients.TableSharesSumTo100 | Dashboard.py:228-235 | the six fixed market shares add up to 100 |
| Clients.InitializeClients | Dashboard.py:226-248 | six rows in table order, row i from draw i, shares summing to 100, totals in [5,50] and [10,200] |
| Tally.Select | Dashboard.py:293 | a selection is no longer than the table and holds only rows the mask accepts |
| Tally.SelectMultiset | Dashboard.py:487-494 | a selection keeps each accepted row exactly as often as it occurs and drops every other row |
| Tally.SortBy | Dashboard.py:496 | sorting yields a permutation ordered by the key |
| Tally.InsertSorted | Dashboard.py:496 | inserting one row into a list ordered by the key keeps it ordered |
| Tally.GroupSizes | Dashboard.py:660-662 | group keys strictly increase and are exactly the values present, each group size is that value's count and positive, and the sizes add up to the number of rows |
| Tally.CountsCover | Dashboard.py:562 | counts over distinct keys covering a column add up to the column's length |
| Tally.CountOfSelect | Dashboard.py:347 | counting in a selection counts the accepted values and gives 0 for the others |
| Aggregation.Successes | Dashboard.py:293 | at most the number of rows, and 0 exactly when no row is a success |
| Aggregation.Rate | Dashboard.py:298 | in [0,100]; 0 exactly when the part is 0 (in particular for an empty whole); 100 exactly when the part is the whole |
| Aggregation.RateIsProportion | Dashboard.py:298 | for a non-empty whole, rate × whole = 100 × part |
| Aggregation.SuccessRate | Dashboard.py:292-298 | in [0,100], 0 for an empty table, 0 iff no success, 100 iff a non-empty table of successes only |
| Aggregation.UpcomingPlanned | Dashboard.py:294-297 | only planned rows dated after now, and every such row kept as often as it occurs |
| Aggregation.ComputeKeyMetrics | Dashboard.py:292-301 | total, successes, upcoming planned and satellites, with successes and planned at most the total and the rate in [0,100] |
| Aggregation.ApplyFilter | Dashboard.py:487-494 | the filtered table is no longer than the table and holds only its rows that match every selector |
| Aggregation.ApplyFilterMultiset | Dashboard.py:487-494 | the three selectors keep exactly the rows matching every selector that is not "Tous", as often as they occur |
| Aggregation.FilteredMissions | Dashboard.py:487-497 | a sub-multiset of the missions holding every matching row, each row matching, ordered by launch date descending |
| Aggregation.AllCriteriaKeepEveryMission | Dashboard.py:487-494 | with all three selectors on "Tous" the calendar is a permutation of the table |
| Aggregation.UnmatchedClientGivesEmpty | Dashboard.py:493-494 | a client no mission carries empties the calendar |
| Aggregation.SegmentOptionsNeverMatch | Dashboard.py:483-494 | the options "Commercial", "Autres Institutionnels" and "Militaires" offered by the client selector empty the calendar |
| Aggregation.CalendarPage | Dashboard.py:499 | `head(20)`: at most 20 rows, a prefix of the sorted calendar, the whole calendar when it has at most 20 rows, none older than a row left out |
| Aggregation.LaunchesByYear | Dashboard.py:660-662 | years ascending, exactly the years present, each count that year's number of missions, counts summing to the number of missions |
| Aggregation.LaunchesByYearAndLauncher | Dashboard.py:431-434 | keys ordered by year then launcher name, exactly the pairs present, each count that pair's number of missions, counts summing to the number of missions |
| Aggregation.YearLauncherRankInjective | Dashboard.py:431-434 | the (year, launcher) rank tells distinct keys apart |
| Aggregation.PairCountIsSliceCount | Dashboard.py:562 | the missions of a launcher on an orbit are that orbit's count among the launcher's missions |
| Aggregation.SliceSizeIsCount | Dashboard.py:346 | the number of a launcher's missions is its count in the launcher column |
| Aggregation.CrosstabRowSum | Dashboard.py:562 | a crosstab row adds up to the launcher's mission count |
| Aggregation.LauncherOrbitCrosstab | Dashboard.py:562 | rows are exactly the launchers present and columns exactly the orbits present, both sorted by name; each cell is that pair's count and each row sums to the launcher's mission count |
| Aggregation.CovidPeriod | Dashboard.py:690-693 | the COVID table holds only rows of the table dated within 2020-01-01 to 2021-12-31 00:00, and is no longer than the table |
| Aggregation.PreCovid | Dashboard.py:695-698 | the reference table holds only rows of the table dated within 2018-01-01 to 2019-12-31 00:00, and is no longer than the table |
| Aggregation.CovidWindowDates | Dashboard.py:690-698 | a launch is in the COVID window iff it is in 2020, or in 2021 no later than 31 December 2021 00:00 (likewise 2018/2019 for the reference window) |
| Aggregation.GeneratedMissionWindows | Dashboard.py:690-698 | a generated (midnight) launch is in a window exactly when its year is |
| Aggregation.Change | Dashboard.py:703-719 | no value exactly when the base is 0 (the source's division by zero); otherwise the value times the base is 100 × the difference |
| Aggregation.LaunchVariation | Dashboard.py:703-705 | no value exactly when the reference window is empty; otherwise the value times the reference count is 100 × (COVID count − reference count) |
| Aggregation.MassVariation | Dashboard.py:714-716 | no value exactly when the reference window's mass is 0; otherwise the value times the reference mass is 100 × (COVID mass − reference mass) |
| Aggregation.SuccessDelta | Dashboard.py:726-727 | no value exactly when either window is empty; otherwise the difference of the two success rates, within [-100,100] |
| Aggregation.MassVariationFollowsLaunchVariation | Dashboard.py:703-719 | once the launch variation is defined the mass variation is too: a non-empty reference window has positive mass |
| Aggregation.RateRowOf | Dashboard.py:347-355 | a launcher contributes at most one chart row |
| Aggregation.RateRows | Dashboard.py:345-355 | the chart has at most one row per launcher |
| Aggregation.RateRowsOk | Dashboard.py:345-355 | each row of the performance chart has flights > 0 equal to the launcher's mission count and its success rate in [0,100] |
| Aggregation.RateRowOfShape | Dashboard.py:347-355 | a launcher contributes exactly one chart row when it has missions and none otherwise, and that row names it |
| Aggregation.RateRowsComplete | Dashboard.py:345-355 | every launcher with missions has its row |
| Aggregation.SuccessRatesByLauncher | Dashboard.py:344-355 | the loop builds exactly the chart's rows, each row satisfying the above |
| Aggregation.CatalogRatesCoverEveryMission | Dashboard.py:345-355 | over the catalog, the chart's flight counts add up to the number of missions |
| Aggregation.Detail | Dashboard.py:447-460 | a details row counts at most the table's rows, its success rate is in [0,100] and 0 when the launcher has no missions |
| Aggregation.DetailFacts | Dashboard.py:445-460 | a details row reports the launcher's mission count, its success rate (0 when it has none, in [0,100]), its full name, first flight and GTO capacity |
| Aggregation.DetailsAt | Dashboard.py:444-460 | row i of the details table describes launcher i |
| Aggregation.LauncherDetails | Dashboard.py:444-462 | the loop builds one row per catalog launcher, row i being launcher i's details |
| Projection.LastYear | Dashboard.py:740 | none for an empty table; otherwise a year present in the table and no smaller than any mission's year |
| Projection.ProjectionYears | Dashboard.py:741 | `max(0, 2030 - last)` years, consecutive from last + 1, exactly the years in (last, 2030] |
| Projection.BuildProjection | Dashboard.py:743-755 | the loop yields one "Projection" point per year, last + 1 + i at position i, all within (last, 2030] |
| Projection.HistoricalPoints | Dashboard.py:760-763 | labelled "Historique", years strictly increasing, counts from the launches-per-year grouping |
| Projection.HistoricalYears | Dashboard.py:760-763 | each historical year is 2018 or later, present in the table, and its count is that year's number of missions |
| Projection.CombinedSeries | Dashboard.py:765 | empty for an empty table; otherwise as many points as historical points plus projected years |
| Projection.CombinedYearsIncrease | Dashboard.py:765 | the concatenated series' years strictly increase |
| Projection.CombinedSeriesLabels | Dashboard.py:740-765 | historical points first (years ≥ 2018), then exactly `max(0, 2030 - last)` projected points last + 1, last + 2, … |
| Dashboard.CountInYear | Dashboard.py:253-256 | the current year's count is at most the number of rows |
| Dashboard.CountInYearIsYearCount | Dashboard.py:253-256 | the current year's count is the year's count in the year column, and 0 exactly when no mission is dated that year |
| Dashboard.LiveUpdate | Dashboard.py:253-270 | a refresh adds at most one row, keeps the existing rows in order, and adds one iff fewer than 12 missions are dated in the current year |
| Dashboard.LiveUpdateAppendsPlanned | Dashboard.py:257-268 | the appended row is planned, dated strictly after now, 1 to 180 days after today at the same time of day, from {Vega, Vega C, Ariane 5}, mass in [1000,5000], id "VV" + [230,250] |
| Dashboard.LiveUpdateThreshold | Dashboard.py:253-256 | the current year's count never decreases, is unchanged from 12 on, and never exceeds 12 when it started below 12 |
| Dashboard.LiveUpdateAddsUpcoming | Dashboard.py:256-270 | an appended row is one more upcoming planned mission at now |
| Dashboard.DashboardSession.constructor | Dashboard.py:82-86 | the four tables are the four generators' results, and the session invariant holds |
| Dashboard.SessionRowsWellFormed | Dashboard.py:82-86 | in any session every mission row is a generated or a live row |
| Dashboard.SessionSegmentOptionsNeverMatch | Dashboard.py:483-494 | in any session, the segment names offered by the client selector empty the calendar |
| Dashboard.SessionMassVariationFollowsLaunchVariation | Dashboard.py:703-719 | in any session, the mass variation is defined whenever the launch variation is |
| Dashboard.DashboardSession.UpdateLiveData | Dashboard.py:250-270 | the mission table becomes the refresh specification's result, the other tables stay the same, and the session invariant is kept |

## Left out

- Rendering is not modelled: Streamlit layout, CSS, widgets, tabs, sidebar, markdown, Plotly charts and the site map. These only display the computed tables.
- The `time.sleep(30)` / `st.rerun()` refresh loop is not modelled. One call of `UpdateLiveData` is one tick.
- The projected launch counts `int(10 * (1 + rate) ** k)` are floating-point arithmetic. Projected points carry no count (`launches` is None); only their years and labels are modelled.
- The decorative random deltas of the metric cards are not modelled. They affect no data.
- Percentage formatting (`:.1f`) is not modelled. Rates are exact reals, not binary floats.
- The value-count pie charts are not modelled: mission types, orbits and client shares. Neither are the per-year mass sums, the client-evolution grouping nor the capacity comparison chart. They are further group-bys over the same tables, of the same kind as those modelled.
- `datetime.now()` has microseconds. Live launch dates keep only whole seconds.
- The payload text `"Satellite <kind> <n>"` is modelled as a structured (kind, number) pair.
- Tally.SortBy: `sort_values` uses an unstable sort, so it may order missions with the same launch date differently. The model uses one particular stable order. The descending-date property holds for any order.
- Aggregation.FilteredMissions: "sorted by date, descending" is non-strict, because two missions can share a launch date.
- The traffic draws are a grid with one draw per (month, launcher). The source draws only for pairs that pass the gates. The unused draws do not change the rows produced.
- Traffic.MonthEnds: `date_range(freq='M')` is modelled at day granularity. A month end counts once `now` has reached that day.
- `float` and `numpy` overflow and NaN are not modelled. For an empty table, `max()` of the years is NaN and the projection cannot be built; `LastYear` returns None there.
- Division by zero in the COVID comparison is an explicit error value (None). The source raises `ZeroDivisionError` there.
