/**
 * The computations the dashboard's views run over the current tables:
 * the key metrics, the mission calendar filter, the group-by counts, the
 * launcher x orbit crosstab, the COVID comparison and the per-launcher tables.
 */
module Aggregation {
  import opened Wrappers
  import opened Calendar
  import opened Launchers
  import opened Missions
  import opened Tally
  import opened Traffic

  // ---------------------------------------------------------------------
  // Columns and masks.

  function YearKey(m: Mission): int { m.launchDate.year }
  function LauncherKey(m: Mission): LauncherId { m.launcher }
  function OrbitKey(m: Mission): Orbit { m.orbit }
  function StatusKey(m: Mission): MissionStatus { m.status }
  function YearLauncherKey(m: Mission): (int, LauncherId) { (m.launchDate.year, m.launcher) }
  function LauncherOrbitKey(m: Mission): (LauncherId, Orbit) { (m.launcher, m.orbit) }

  function OfLauncher(l: LauncherId): Mission -> bool { (m: Mission) => m.launcher == l }
  function OfStatus(s: MissionStatus): Mission -> bool { (m: Mission) => m.status == s }
  function OfClient(c: string): Mission -> bool { (m: Mission) => m.client == c }
  function FromYear(y: int): Mission -> bool { (m: Mission) => m.launchDate.year >= y }
  function InYear(y: int): Mission -> bool { (m: Mission) => m.launchDate.year == y }

  // ---------------------------------------------------------------------
  // Key metrics (display_key_metrics).

  /** A part of a positive whole, in percent, lies between 0 and 100. */
  lemma Percent(part: real, whole: real)
    requires 0.0 <= part <= whole && whole > 0.0
    ensures 0.0 <= part / whole * 100.0 <= 100.0
    ensures part / whole * 100.0 * whole == 100.0 * part
    ensures part / whole * 100.0 == 0.0 <==> part == 0.0
    ensures part / whole * 100.0 == 100.0 <==> part == whole
  {
    var q := part / whole;
    assert q * whole == part;
    assert (1.0 - q) * whole == whole - part;
  }

  /** A relative change in percent, multiplied back by its base, gives the change. */
  lemma Variation(change: real, base: real)
    requires base != 0.0
    ensures change / base * 100.0 * base == 100.0 * change
  {
    var q := change / base;
    assert q * base == change;
  }

  /** The number of rows whose status is "Succès". */
  function Successes(ms: seq<Mission>): (n: nat)
    ensures n <= |ms|
    ensures n == 0 <==> forall m :: m in ms ==> m.status != Success
  {
    var c := Column(ms, StatusKey);
    assert Success in c <==> exists m :: m in ms && m.status == Success;
    Count(c, Success)
  }

  /** `part` out of `whole` in percent; 0 for an empty whole instead of a division by zero. */
  function Rate(part: nat, whole: nat): (r: real)
    requires part <= whole
    ensures 0.0 <= r <= 100.0
    ensures r == 0.0 <==> part == 0
    ensures r == 100.0 <==> whole > 0 && part == whole
  {
    if whole == 0 then 0.0
    else
      Percent(part as real, whole as real);
      (part as real) / (whole as real) * 100.0
  }

  lemma AllSucceeded(ms: seq<Mission>)
    ensures Successes(ms) == |ms| <==> forall m :: m in ms ==> m.status == Success
  {
    var c := Column(ms, StatusKey);
    CountAll(c, Success);
    if forall m :: m in ms ==> m.status == Success {
      assert forall i :: 0 <= i < |c| ==> c[i] == Success by {
        forall i | 0 <= i < |c| ensures c[i] == Success {
          assert ms[i] in ms;
        }
      }
    }
  }

  /** A non-zero rate, multiplied back by the whole, gives the part. */
  lemma RateIsProportion(part: nat, whole: nat)
    requires part <= whole && whole > 0
    ensures Rate(part, whole) * (whole as real) == 100.0 * (part as real)
  {
    Percent(part as real, whole as real);
  }

  /** Success rate of a table, in percent. */
  function SuccessRate(ms: seq<Mission>): (r: real)
    ensures 0.0 <= r <= 100.0
    ensures |ms| == 0 ==> r == 0.0
    ensures r == 0.0 <==> forall m :: m in ms ==> m.status != Success
    ensures r == 100.0 <==> |ms| > 0 && forall m :: m in ms ==> m.status == Success
  {
    AllSucceeded(ms);
    Rate(Successes(ms), |ms|)
  }

  /** Planned, and dated after `now`. */
  function UpcomingMask(now: DateTime): Mission -> bool {
    (m: Mission) => m.status == Planned && Instant(now) < Instant(m.launchDate)
  }

  /** The planned missions still to come at `now`. */
  function UpcomingPlanned(ms: seq<Mission>, now: DateTime): (r: seq<Mission>)
    ensures forall m :: m in r ==> m.status == Planned && Instant(now) < Instant(m.launchDate)
    ensures forall m: Mission :: m.status == Planned && Instant(now) < Instant(m.launchDate) ==>
              multiset(r)[m] == multiset(ms)[m]
    ensures |r| <= |ms|
  {
    SelectMultiset(ms, UpcomingMask(now));
    Select(ms, UpcomingMask(now))
  }

  datatype KeyMetrics = KeyMetrics(
    missionsTotal: nat,
    missionsSucceeded: nat,
    missionsPlanned: nat,
    successRate: real,
    satellitesTotal: int)

  function ComputeKeyMetrics(ms: seq<Mission>, traffic: seq<TrafficSample>, now: DateTime): (k: KeyMetrics)
    ensures k.missionsTotal == |ms|
    ensures k.missionsSucceeded == Successes(ms) && k.missionsSucceeded <= k.missionsTotal
    ensures k.missionsPlanned == |UpcomingPlanned(ms, now)| && k.missionsPlanned <= k.missionsTotal
    ensures k.successRate == SuccessRate(ms) && 0.0 <= k.successRate <= 100.0
    ensures k.missionsTotal == 0 ==> k.successRate == 0.0
    ensures k.satellitesTotal == SatellitesTotal(traffic)
  {
    KeyMetrics(|ms|, Successes(ms), |UpcomingPlanned(ms, now)|, SuccessRate(ms), SatellitesTotal(traffic))
  }

  // ---------------------------------------------------------------------
  // The mission calendar: three selectors, "Tous" meaning no constraint.

  /** A selector value: `All` stands for the option "Tous". */
  datatype Criterion<T> = All | Only(value: T)

  predicate Accepts<T(==)>(c: Criterion<T>, v: T) {
    c.All? || c.value == v
  }

  datatype MissionFilter = MissionFilter(
    launcher: Criterion<LauncherId>,
    status: Criterion<MissionStatus>,
    client: Criterion<string>)

  predicate Matches(f: MissionFilter, m: Mission) {
    Accepts(f.launcher, m.launcher) && Accepts(f.status, m.status) && Accepts(f.client, m.client)
  }

  /** Each selector that is not "Tous" narrows the table in turn. */
  function ApplyFilter(ms: seq<Mission>, f: MissionFilter): (r: seq<Mission>)
    ensures |r| <= |ms|
    ensures forall m :: m in r ==> m in ms && Matches(f, m)
  {
    var a := if f.launcher.Only? then SelectIsSubset(ms, OfLauncher(f.launcher.value)); Select(ms, OfLauncher(f.launcher.value)) else ms;
    var b := if f.status.Only? then SelectIsSubset(a, OfStatus(f.status.value)); Select(a, OfStatus(f.status.value)) else a;
    if f.client.Only? then SelectIsSubset(b, OfClient(f.client.value)); Select(b, OfClient(f.client.value)) else b
  }

  /** The filter keeps exactly the matching rows, each as often as it occurs. */
  lemma ApplyFilterMultiset(ms: seq<Mission>, f: MissionFilter)
    ensures forall m :: multiset(ApplyFilter(ms, f))[m] == if Matches(f, m) then multiset(ms)[m] else 0
  {
    var a := if f.launcher.Only? then Select(ms, OfLauncher(f.launcher.value)) else ms;
    var b := if f.status.Only? then Select(a, OfStatus(f.status.value)) else a;
    var c := ApplyFilter(ms, f);
    if f.launcher.Only? { SelectMultiset(ms, OfLauncher(f.launcher.value)); }
    if f.status.Only? { SelectMultiset(a, OfStatus(f.status.value)); }
    if f.client.Only? { SelectMultiset(b, OfClient(f.client.value)); }
    forall m ensures multiset(c)[m] == if Matches(f, m) then multiset(ms)[m] else 0 {
      assert multiset(a)[m] == if Accepts(f.launcher, m.launcher) then multiset(ms)[m] else 0;
      assert multiset(b)[m] == if Accepts(f.status, m.status) then multiset(a)[m] else 0;
      assert multiset(c)[m] == if Accepts(f.client, m.client) then multiset(b)[m] else 0;
    }
  }

  function NewestFirst(m: Mission): int { -Instant(m.launchDate) }

  /** The filtered missions sorted by launch date, newest first. */
  function FilteredMissions(ms: seq<Mission>, f: MissionFilter): (r: seq<Mission>)
    ensures forall m :: multiset(r)[m] == if Matches(f, m) then multiset(ms)[m] else 0
    ensures forall m :: m in r ==> Matches(f, m)
    ensures forall i, j :: 0 <= i < j < |r| ==> Instant(r[i].launchDate) >= Instant(r[j].launchDate)
  {
    ApplyFilterMultiset(ms, f);
    var r := SortBy(ApplyFilter(ms, f), NewestFirst);
    assert forall i, j :: 0 <= i < j < |r| ==> NewestFirst(r[i]) <= NewestFirst(r[j]);
    forall m | m in r ensures Matches(f, m) {
      assert m in multiset(r);
    }
    r
  }

  /** With every selector on "Tous" the calendar lists every mission. */
  lemma AllCriteriaKeepEveryMission(ms: seq<Mission>)
    ensures multiset(FilteredMissions(ms, MissionFilter(All, All, All))) == multiset(ms)
  {
    var r := FilteredMissions(ms, MissionFilter(All, All, All));
    assert forall m :: multiset(r)[m] == multiset(ms)[m];
  }

  /** A selector value that no mission carries empties the calendar. */
  lemma UnmatchedClientGivesEmpty(ms: seq<Mission>, f: MissionFilter, c: string)
    requires f.client == Only(c)
    requires forall m :: m in ms ==> m.client != c
    ensures FilteredMissions(ms, f) == []
  {
    var r := FilteredMissions(ms, f);
    assert multiset(r) == multiset{};
  }

  /**
   * The client selector offers the market segments of the client table, but
   * missions carry client names from another list: "Commercial",
   * "Autres Institutionnels" and "Militaires" never match any mission.
   */
  lemma SegmentOptionsNeverMatch(ms: seq<Mission>, c: string)
    requires forall m :: m in ms ==> WellFormed(m)
    requires c == "Commercial" || c == "Autres Institutionnels" || c == "Militaires"
    ensures FilteredMissions(ms, MissionFilter(All, All, Only(c))) == []
  {
    forall m | m in ms ensures m.client != c {
      WellFormedFacts(m);
    }
    UnmatchedClientGivesEmpty(ms, MissionFilter(All, All, Only(c)), c);
  }

  const CalendarPageSize: nat := 20

  /** `head(20)` of the sorted calendar: the newest matching missions. */
  function CalendarPage(ms: seq<Mission>, f: MissionFilter): (page: seq<Mission>)
    ensures |page| <= CalendarPageSize
    ensures var all := FilteredMissions(ms, f);
            && |page| <= |all|
            && page == all[..|page|]
            && (|all| <= CalendarPageSize ==> page == all)
            && forall i, j :: 0 <= i < |page| <= j < |all| ==>
                 Instant(page[i].launchDate) >= Instant(all[j].launchDate)
  {
    var all := FilteredMissions(ms, f);
    if |all| <= CalendarPageSize then all else all[..CalendarPageSize]
  }

  // ---------------------------------------------------------------------
  // Group-by counts.

  function YearRank(y: int): int { y }

  /** Keys ordered by year, then by launcher name. */
  function YearLauncherRank(p: (int, LauncherId)): int { p.0 * 8 + NameRank(p.1) }

  lemma YearRankInjective()
    ensures Injective(YearRank)
  {
  }

  lemma YearLauncherRankInjective()
    ensures Injective(YearLauncherRank)
  {
    forall a: (int, LauncherId), b: (int, LauncherId) | YearLauncherRank(a) == YearLauncherRank(b)
      ensures a == b
    {
      NameRankIsAlphabetical(a.1, b.1);
    }
  }

  lemma NameRankInjective()
    ensures Injective(NameRank)
  {
    forall a, b | NameRank(a) == NameRank(b) ensures a == b {
      NameRankIsAlphabetical(a, b);
    }
  }

  lemma OrbitRankInjective()
    ensures Injective(OrbitRank)
  {
    forall a, b | OrbitRank(a) == OrbitRank(b) ensures a == b {
      OrbitRankIsAlphabetical(a, b);
    }
  }

  /** Launches per year, years ascending. */
  function LaunchesByYear(ms: seq<Mission>): (g: seq<(int, nat)>)
    ensures forall i, j :: 0 <= i < j < |g| ==> g[i].0 < g[j].0
    ensures forall y :: y in Keys(g) <==> y in Column(ms, YearKey)
    ensures forall i :: 0 <= i < |g| ==> g[i].1 == Count(Column(ms, YearKey), g[i].0) && g[i].1 > 0
    ensures Sum(Sizes(g)) == |ms|
  {
    YearRankInjective();
    var g := GroupSizes(Column(ms, YearKey), YearRank);
    forall i, j | 0 <= i < j < |g| ensures g[i].0 < g[j].0 {
      assert YearRank(Keys(g)[i]) < YearRank(Keys(g)[j]);
    }
    g
  }

  /** Launches per (year, launcher), ordered by year then launcher name. */
  function LaunchesByYearAndLauncher(ms: seq<Mission>): (g: seq<((int, LauncherId), nat)>)
    ensures StrictlyIncreasing(Keys(g), YearLauncherRank)
    ensures forall k :: k in Keys(g) <==> k in Column(ms, YearLauncherKey)
    ensures forall i :: 0 <= i < |g| ==> g[i].1 == Count(Column(ms, YearLauncherKey), g[i].0) && g[i].1 > 0
    ensures Sum(Sizes(g)) == |ms|
  {
    YearLauncherRankInjective();
    GroupSizes(Column(ms, YearLauncherKey), YearLauncherRank)
  }

  // ---------------------------------------------------------------------
  // The launcher x orbit crosstab.

  datatype Crosstab = Crosstab(rows: seq<LauncherId>, cols: seq<Orbit>, cells: seq<seq<nat>>)

  /** A row of the Column of a selection is a row of the whole Column. */
  lemma SelectedColumnIsInColumn<K>(ms: seq<Mission>, p: Mission -> bool, key: Mission -> K, x: K)
    requires x in Column(Select(ms, p), key)
    ensures x in Column(ms, key)
  {
    var sel := Select(ms, p);
    var k :| 0 <= k < |sel| && Column(sel, key)[k] == x;
    SelectIsSubset(ms, p);
    assert sel[k] in ms;
    var t :| 0 <= t < |ms| && ms[t] == sel[k];
    assert Column(ms, key)[t] == x;
  }

  /** The (launcher, orbit) count equals the orbit count among that launcher's missions. */
  lemma {:induction false} PairCountIsSliceCount(ms: seq<Mission>, l: LauncherId, o: Orbit)
    ensures Count(Column(ms, LauncherOrbitKey), (l, o)) == Count(Column(Select(ms, OfLauncher(l)), OrbitKey), o)
  {
    if ms != [] {
      PairCountIsSliceCount(ms[..|ms| - 1], l, o);
      CountColumnSnoc(ms, LauncherOrbitKey, (l, o));
      CountSelectedColumnSnoc(ms, OfLauncher(l), OrbitKey, o);
    }
  }

  /** The number of a launcher's missions is its count in the launcher column. */
  lemma {:induction false} SliceSizeIsCount(ms: seq<Mission>, l: LauncherId)
    ensures |Select(ms, OfLauncher(l))| == Count(Column(ms, LauncherKey), l)
  {
    if ms != [] {
      var k := |ms| - 1;
      SliceSizeIsCount(ms[..k], l);
      assert Column(ms, LauncherKey) == Column(ms[..k], LauncherKey) + [ms[k].launcher];
      CountSnoc(Column(ms[..k], LauncherKey), [ms[k].launcher], l);
    }
  }

  function CrosstabCells(ms: seq<Mission>, rows: seq<LauncherId>, cols: seq<Orbit>): (cells: seq<seq<nat>>)
    ensures |cells| == |rows|
    ensures forall i :: 0 <= i < |rows| ==> |cells[i]| == |cols|
    ensures forall i, j :: 0 <= i < |rows| && 0 <= j < |cols| ==>
              cells[i][j] == Count(Column(ms, LauncherOrbitKey), (rows[i], cols[j]))
  {
    seq(|rows|, i requires 0 <= i < |rows| =>
      seq(|cols|, j requires 0 <= j < |cols| => Count(Column(ms, LauncherOrbitKey), (rows[i], cols[j]))))
  }

  /** Each crosstab row adds up to that launcher's number of missions. */
  lemma CrosstabRowSum(ms: seq<Mission>, l: LauncherId, cols: seq<Orbit>)
    requires Distinct(cols)
    requires forall o :: o in Column(ms, OrbitKey) ==> o in cols
    ensures Sum(seq(|cols|, j requires 0 <= j < |cols| => Count(Column(ms, LauncherOrbitKey), (l, cols[j]))))
         == Count(Column(ms, LauncherKey), l)
  {
    var sel := Select(ms, OfLauncher(l));
    var os := Column(sel, OrbitKey);
    forall j | 0 <= j < |cols|
      ensures Count(Column(ms, LauncherOrbitKey), (l, cols[j])) == Count(os, cols[j])
    {
      PairCountIsSliceCount(ms, l, cols[j]);
    }
    assert seq(|cols|, j requires 0 <= j < |cols| => Count(Column(ms, LauncherOrbitKey), (l, cols[j])))
        == Counts(os, cols);
    forall o | o in os ensures o in cols {
      SelectedColumnIsInColumn(ms, OfLauncher(l), OrbitKey, o);
    }
    CountsCover(os, cols);
    SliceSizeIsCount(ms, l);
  }

  /** `pd.crosstab(lanceur, orbite)`: rows and columns are the values present, sorted by name. */
  function LauncherOrbitCrosstab(ms: seq<Mission>): (t: Crosstab)
    ensures StrictlyIncreasing(t.rows, NameRank)
    ensures forall l :: l in t.rows <==> l in Column(ms, LauncherKey)
    ensures StrictlyIncreasing(t.cols, OrbitRank)
    ensures forall o :: o in t.cols <==> o in Column(ms, OrbitKey)
    ensures |t.cells| == |t.rows| && forall i :: 0 <= i < |t.rows| ==> |t.cells[i]| == |t.cols|
    ensures forall i, j :: 0 <= i < |t.rows| && 0 <= j < |t.cols| ==>
              t.cells[i][j] == Count(Column(ms, LauncherOrbitKey), (t.rows[i], t.cols[j]))
    ensures forall i :: 0 <= i < |t.rows| ==> Sum(t.cells[i]) == Count(Column(ms, LauncherKey), t.rows[i])
  {
    NameRankInjective();
    OrbitRankInjective();
    var rows := GroupKeys(Column(ms, LauncherKey), NameRank);
    var cols := GroupKeys(Column(ms, OrbitKey), OrbitRank);
    StrictlyIncreasingIsDistinct(cols, OrbitRank);
    var cells := CrosstabCells(ms, rows, cols);
    CrosstabRowSums(ms, rows, cols, cells);
    Crosstab(rows, cols, cells)
  }

  lemma CrosstabRowSums(ms: seq<Mission>, rows: seq<LauncherId>, cols: seq<Orbit>, cells: seq<seq<nat>>)
    requires Distinct(cols)
    requires forall o :: o in Column(ms, OrbitKey) ==> o in cols
    requires cells == CrosstabCells(ms, rows, cols)
    ensures forall i :: 0 <= i < |rows| ==> Sum(cells[i]) == Count(Column(ms, LauncherKey), rows[i])
  {
    forall i | 0 <= i < |rows| ensures Sum(cells[i]) == Count(Column(ms, LauncherKey), rows[i]) {
      assert cells[i] == seq(|cols|, j requires 0 <= j < |cols| => Count(Column(ms, LauncherOrbitKey), (rows[i], cols[j])));
      CrosstabRowSum(ms, rows[i], cols);
    }
  }

  // ---------------------------------------------------------------------
  // The COVID comparison: two date windows and three unguarded ratios.

  const PreCovidStart: DateTime := Midnight(2018, 1, 1)
  const PreCovidEnd: DateTime := Midnight(2019, 12, 31)
  const CovidStart: DateTime := Midnight(2020, 1, 1)
  const CovidEnd: DateTime := Midnight(2021, 12, 31)

  /** `lo <= date_lancement <= hi`, both bounds being midnight timestamps. */
  function InWindow(lo: DateTime, hi: DateTime): Mission -> bool {
    (m: Mission) => Instant(lo) <= Instant(m.launchDate) <= Instant(hi)
  }

  /** The missions of the 2018-2019 window, in table order. */
  function PreCovid(ms: seq<Mission>): (r: seq<Mission>)
    ensures |r| <= |ms|
    ensures forall m :: m in r ==> m in ms && InWindow(PreCovidStart, PreCovidEnd)(m)
  {
    SelectIsSubset(ms, InWindow(PreCovidStart, PreCovidEnd));
    Select(ms, InWindow(PreCovidStart, PreCovidEnd))
  }

  /** The missions of the 2020-2021 window, in table order. */
  function CovidPeriod(ms: seq<Mission>): (r: seq<Mission>)
    ensures |r| <= |ms|
    ensures forall m :: m in r ==> m in ms && InWindow(CovidStart, CovidEnd)(m)
  {
    SelectIsSubset(ms, InWindow(CovidStart, CovidEnd));
    Select(ms, InWindow(CovidStart, CovidEnd))
  }

  /**
   * The COVID window holds the 2020 launches and the 2021 launches except
   * those later than midnight on 31 December 2021.
   */
  lemma CovidWindowDates(m: Mission)
    requires ValidDateTime(m.launchDate)
    ensures InWindow(CovidStart, CovidEnd)(m) <==>
              m.launchDate.year == 2020
              || (m.launchDate.year == 2021 && Instant(m.launchDate) <= Instant(Midnight(2021, 12, 31)))
    ensures InWindow(PreCovidStart, PreCovidEnd)(m) <==>
              m.launchDate.year == 2018
              || (m.launchDate.year == 2019 && Instant(m.launchDate) <= Instant(Midnight(2019, 12, 31)))
  {
    var d := m.launchDate;
    InstantIsChronological(CovidStart, d);
    InstantIsChronological(d, CovidEnd);
    InstantIsChronological(PreCovidStart, d);
    InstantIsChronological(d, PreCovidEnd);
  }

  /** A generated mission (dated at midnight) is in a window exactly when its year is. */
  lemma GeneratedMissionWindows(m: Mission)
    requires GeneratedMission(m)
    ensures InWindow(CovidStart, CovidEnd)(m) <==> 2020 <= m.launchDate.year <= 2021
    ensures InWindow(PreCovidStart, PreCovidEnd)(m) <==> 2018 <= m.launchDate.year <= 2019
  {
    CovidWindowDates(m);
    InstantIsChronological(m.launchDate, Midnight(2021, 12, 31));
    InstantIsChronological(m.launchDate, Midnight(2019, 12, 31));
  }

  function MassSum(ms: seq<Mission>): int {
    if ms == [] then 0 else MassSum(ms[..|ms| - 1]) + ms[|ms| - 1].payloadMass
  }

  /** Relative change from `before` to `after` in percent; None where `before` is 0. */
  function Change(before: int, after: int): (v: Option<real>)
    ensures v.None? <==> before == 0
    ensures v.Some? ==> v.value * (before as real) == 100.0 * ((after - before) as real)
  {
    if before == 0 then None
    else
      Variation((after - before) as real, before as real);
      Some(((after - before) as real) / (before as real) * 100.0)
  }

  /** Change in the number of launches; None where the source divides by zero. */
  function LaunchVariation(ms: seq<Mission>): (v: Option<real>)
    ensures v.None? <==> |PreCovid(ms)| == 0
    ensures v.Some? ==> v.value * (|PreCovid(ms)| as real) == 100.0 * ((|CovidPeriod(ms)| - |PreCovid(ms)|) as real)
  {
    Change(|PreCovid(ms)|, |CovidPeriod(ms)|)
  }

  /** Change in the launched mass; None where the source divides by zero. */
  function MassVariation(ms: seq<Mission>): (v: Option<real>)
    ensures v.None? <==> MassSum(PreCovid(ms)) == 0
    ensures v.Some? ==> v.value * (MassSum(PreCovid(ms)) as real) == 100.0 * ((MassSum(CovidPeriod(ms)) - MassSum(PreCovid(ms))) as real)
  {
    Change(MassSum(PreCovid(ms)), MassSum(CovidPeriod(ms)))
  }

  /** Success-rate difference in points; None where either window is empty. */
  function SuccessDelta(ms: seq<Mission>): (v: Option<real>)
    ensures v.None? <==> |PreCovid(ms)| == 0 || |CovidPeriod(ms)| == 0
    ensures v.Some? ==> v.value == SuccessRate(CovidPeriod(ms)) - SuccessRate(PreCovid(ms))
    ensures v.Some? ==> -100.0 <= v.value <= 100.0
  {
    if |PreCovid(ms)| == 0 || |CovidPeriod(ms)| == 0 then None
    else Some(SuccessRate(CovidPeriod(ms)) - SuccessRate(PreCovid(ms)))
  }

  lemma {:induction false} MassSumPositive(ms: seq<Mission>)
    requires forall m :: m in ms ==> m.payloadMass >= 100
    ensures MassSum(ms) >= 100 * |ms|
  {
    if ms != [] {
      assert ms[|ms| - 1] in ms;
      MassSumPositive(ms[..|ms| - 1]);
    }
  }

  /** Once the launch ratio has been computed, the mass ratio cannot divide by zero. */
  lemma MassVariationFollowsLaunchVariation(ms: seq<Mission>)
    requires forall m :: m in ms ==> WellFormed(m)
    requires LaunchVariation(ms).Some?
    ensures MassVariation(ms).Some?
  {
    var pre := PreCovid(ms);
    SelectIsSubset(ms, InWindow(PreCovidStart, PreCovidEnd));
    forall m | m in pre ensures m.payloadMass >= 100 {
      WellFormedFacts(m);
    }
    MassSumPositive(pre);
  }

  // ---------------------------------------------------------------------
  // Per-launcher tables (the two loops over the catalog).

  datatype LauncherRate = LauncherRate(launcher: LauncherId, successRate: real, flights: nat)

  /** The chart row of one launcher: none when it has no missions. */
  function RateRowOf(l: Launcher, ms: seq<Mission>): (r: seq<LauncherRate>)
    ensures |r| <= 1
  {
    var sel := Select(ms, OfLauncher(l.id));
    if |sel| > 0 then [LauncherRate(l.id, SuccessRate(sel), |sel|)] else []
  }

  /** A launcher has a chart row exactly when it has missions, and the row is its own. */
  lemma RateRowOfShape(l: Launcher, ms: seq<Mission>)
    ensures |RateRowOf(l, ms)| == if Count(Column(ms, LauncherKey), l.id) > 0 then 1 else 0
    ensures forall r :: r in RateRowOf(l, ms) ==> r.launcher == l.id
  {
    SliceSizeIsCount(ms, l.id);
  }

  /** The rows of the success-rate chart, in catalog order. */
  function RateRows(ls: seq<Launcher>, ms: seq<Mission>): (r: seq<LauncherRate>)
    ensures |r| <= |ls|
  {
    if ls == [] then [] else RateRows(ls[..|ls| - 1], ms) + RateRowOf(ls[|ls| - 1], ms)
  }

  /** What each row of the success-rate chart says. */
  predicate RateRowOk(r: LauncherRate, ms: seq<Mission>) {
    && r.flights > 0
    && r.flights == Count(Column(ms, LauncherKey), r.launcher)
    && r.successRate == SuccessRate(Select(ms, OfLauncher(r.launcher)))
    && 0.0 <= r.successRate <= 100.0
  }

  lemma {:induction false} RateRowsOk(ls: seq<Launcher>, ms: seq<Mission>)
    ensures forall r :: r in RateRows(ls, ms) ==> RateRowOk(r, ms)
  {
    if ls != [] {
      RateRowsOk(ls[..|ls| - 1], ms);
      SliceSizeIsCount(ms, ls[|ls| - 1].id);
    }
  }

  /** Every launcher of the list with at least one mission has its row. */
  lemma {:induction false} RateRowsComplete(ls: seq<Launcher>, ms: seq<Mission>, j: int)
    requires 0 <= j < |ls| && Count(Column(ms, LauncherKey), ls[j].id) > 0
    ensures exists r :: r in RateRows(ls, ms) && r.launcher == ls[j].id
  {
    var k := |ls| - 1;
    if j < k {
      assert ls[..k][j] == ls[j];
      RateRowsComplete(ls[..k], ms, j);
      RateRowsGrow(ls, ms);
    } else {
      LastRateRow(ls, ms);
    }
  }

  /** The last launcher of the list, when it has missions, has its row. */
  lemma LastRateRow(ls: seq<Launcher>, ms: seq<Mission>)
    requires ls != [] && Count(Column(ms, LauncherKey), ls[|ls| - 1].id) > 0
    ensures exists r :: r in RateRows(ls, ms) && r.launcher == ls[|ls| - 1].id
  {
    var own := RateRowOf(ls[|ls| - 1], ms);
    RateRowOfShape(ls[|ls| - 1], ms);
    RateRowsGrow(ls, ms);
    assert own[0] in own;
  }

  /** Adding a launcher keeps the earlier rows and adds its own. */
  lemma RateRowsGrow(ls: seq<Launcher>, ms: seq<Mission>)
    requires ls != []
    ensures forall r :: r in RateRows(ls[..|ls| - 1], ms) ==> r in RateRows(ls, ms)
    ensures forall r :: r in RateRowOf(ls[|ls| - 1], ms) ==> r in RateRows(ls, ms)
  {
    assert RateRows(ls, ms) == RateRows(ls[..|ls| - 1], ms) + RateRowOf(ls[|ls| - 1], ms);
  }

  /** The rows of the first i + 1 launchers: those of the first i, then the row of launcher i. */
  lemma RateRowsStep(ls: seq<Launcher>, ms: seq<Mission>, i: int)
    requires 0 <= i < |ls|
    ensures RateRows(ls[..i + 1], ms) == RateRows(ls[..i], ms) + RateRowOf(ls[i], ms)
  {
    assert ls[..i + 1][..i] == ls[..i];
  }

  /** Loop of the performance tab: one row per launcher that has missions. */
  method SuccessRatesByLauncher(ls: seq<Launcher>, ms: seq<Mission>) returns (rates: seq<LauncherRate>)
    ensures rates == RateRows(ls, ms)
    ensures forall r :: r in rates ==> RateRowOk(r, ms)
  {
    rates := [];
    var i := 0;
    while i < |ls|
      invariant 0 <= i <= |ls|
      invariant rates == RateRows(ls[..i], ms)
    {
      RateRowsStep(ls, ms, i);
      var missions := Select(ms, OfLauncher(ls[i].id));
      if |missions| > 0 {
        var rate := (Successes(missions) as real) / (|missions| as real) * 100.0;
        assert rate == SuccessRate(missions);
        rates := rates + [LauncherRate(ls[i].id, rate, |missions|)];
      }
      i := i + 1;
    }
    assert ls[..i] == ls;
    RateRowsOk(ls, ms);
  }

  function FlightsTotal(rates: seq<LauncherRate>): nat {
    if rates == [] then 0 else FlightsTotal(rates[..|rates| - 1]) + rates[|rates| - 1].flights
  }

  function IdOf(l: Launcher): LauncherId { l.id }

  lemma {:induction false} FlightsTotalIsSumOfCounts(ls: seq<Launcher>, ms: seq<Mission>)
    ensures FlightsTotal(RateRows(ls, ms)) == Sum(Counts(Column(ms, LauncherKey), Column(ls, IdOf)))
  {
    if ls != [] {
      var k := |ls| - 1;
      var xs := Column(ms, LauncherKey);
      var l := ls[k];
      FlightsTotalIsSumOfCounts(ls[..k], ms);
      SliceSizeIsCount(ms, l.id);
      var counts := Counts(xs, Column(ls, IdOf));
      assert counts[..k] == Counts(xs, Column(ls[..k], IdOf));
      assert Sum(counts) == Sum(counts[..k]) + Count(xs, l.id);
      var sel := Select(ms, OfLauncher(l.id));
      var prev, own := RateRows(ls[..k], ms), RateRowOf(l, ms);
      var rows := prev + own;
      assert RateRows(ls, ms) == rows;
      if |sel| > 0 {
        assert own == [LauncherRate(l.id, SuccessRate(sel), |sel|)];
        assert rows[..|rows| - 1] == prev;
      } else {
        assert own == [] && rows == prev;
      }
    }
  }

  /** The catalog holds every launcher exactly once. */
  lemma CatalogIdsAreComplete()
    ensures Distinct(Column(DefineLaunchers(), IdOf))
    ensures forall x :: x in Column(DefineLaunchers(), IdOf)
  {
    var ids := Column(DefineLaunchers(), IdOf);
    assert forall i :: 0 <= i < 5 ==> ids[i] == CatalogOrder[i];
    forall x ensures x in ids {
      match x
      case Ariane5 => assert ids[0] == x;
      case Ariane6 => assert ids[1] == x;
      case Vega => assert ids[2] == x;
      case VegaC => assert ids[3] == x;
      case Soyuz => assert ids[4] == x;
    }
    forall i, j | 0 <= i < j < |ids| ensures ids[i] != ids[j] {
      CatalogKeysAreDistinct(i, j);
    }
  }

  /** Over the whole catalog, the chart's flight counts add up to the number of missions. */
  lemma CatalogRatesCoverEveryMission(ms: seq<Mission>)
    ensures FlightsTotal(RateRows(DefineLaunchers(), ms)) == |ms|
  {
    FlightsTotalIsSumOfCounts(DefineLaunchers(), ms);
    CatalogIdsAreComplete();
    CountsCover(Column(ms, LauncherKey), Column(DefineLaunchers(), IdOf));
  }

  datatype LauncherDetail = LauncherDetail(
    fullName: string,
    vehicleType: string,
    manufacturer: string,
    firstFlight: int,
    status: VehicleStatus,
    flights: nat,
    successRate: real,
    leoCapacity: int,
    gtoCapacity: Option<int>)

  /** A row of the technical-details table. */
  function Detail(l: Launcher, ms: seq<Mission>): (r: LauncherDetail)
    ensures r.flights <= |ms|
    ensures 0.0 <= r.successRate <= 100.0 && (r.flights == 0 ==> r.successRate == 0.0)
  {
    var sel := Select(ms, OfLauncher(l.id));
    LauncherDetail(l.fullName, l.vehicleType, l.manufacturer, l.firstFlight, l.status,
                   |sel|, SuccessRate(sel), l.leoCapacity, l.geoCapacity)
  }

  /** What a technical-details row reports about its launcher. */
  lemma DetailFacts(l: Launcher, ms: seq<Mission>)
    ensures Detail(l, ms).flights == Count(Column(ms, LauncherKey), l.id)
    ensures 0.0 <= Detail(l, ms).successRate <= 100.0
    ensures Detail(l, ms).flights == 0 ==> Detail(l, ms).successRate == 0.0
    ensures Detail(l, ms).successRate == SuccessRate(Select(ms, OfLauncher(l.id)))
    ensures Detail(l, ms).fullName == l.fullName && Detail(l, ms).firstFlight == l.firstFlight
    ensures Detail(l, ms).gtoCapacity == l.geoCapacity
  {
    var sel := Select(ms, OfLauncher(l.id));
    SliceSizeIsCount(ms, l.id);
    assert Detail(l, ms).successRate == SuccessRate(sel);
  }

  /** The technical-details table: one row per launcher of `ls`, in order. */
  function Details(ls: seq<Launcher>, ms: seq<Mission>): (rows: seq<LauncherDetail>)
    ensures |rows| == |ls|
  {
    if ls == [] then [] else Details(ls[..|ls| - 1], ms) + [Detail(ls[|ls| - 1], ms)]
  }

  /** Row `i` of the table describes launcher `i`. */
  lemma {:induction false} DetailsAt(ls: seq<Launcher>, ms: seq<Mission>, i: int)
    requires 0 <= i < |ls|
    ensures Details(ls, ms)[i] == Detail(ls[i], ms)
  {
    var k := |ls| - 1;
    var prev := Details(ls[..k], ms);
    assert Details(ls, ms) == prev + [Detail(ls[k], ms)];
    if i < k {
      DetailsAt(ls[..k], ms, i);
      assert ls[..k][i] == ls[i];
    }
  }

  lemma DetailRow(l: Launcher, ms: seq<Mission>, missions: seq<Mission>, rate: real)
    requires missions == Select(ms, OfLauncher(l.id))
    requires rate == if |missions| > 0 then (Successes(missions) as real) / (|missions| as real) * 100.0 else 0.0
    ensures Detail(l, ms) == LauncherDetail(l.fullName, l.vehicleType, l.manufacturer, l.firstFlight, l.status,
                                            |missions|, rate, l.leoCapacity, l.geoCapacity)
  {
    assert rate == SuccessRate(missions);
  }

  /** Loop of the technical-details tab: one row per catalog launcher. */
  method LauncherDetails(ls: seq<Launcher>, ms: seq<Mission>) returns (rows: seq<LauncherDetail>)
    ensures rows == Details(ls, ms)
    ensures |rows| == |ls| && forall i :: 0 <= i < |ls| ==> rows[i] == Detail(ls[i], ms)
  {
    rows := [];
    var i := 0;
    while i < |ls|
      invariant 0 <= i <= |ls|
      invariant rows == Details(ls[..i], ms)
    {
      var missions := Select(ms, OfLauncher(ls[i].id));
      var succes := Successes(missions);
      var rate := if |missions| > 0 then (succes as real) / (|missions| as real) * 100.0 else 0.0;
      var row := LauncherDetail(ls[i].fullName, ls[i].vehicleType, ls[i].manufacturer,
                                ls[i].firstFlight, ls[i].status, |missions|, rate,
                                ls[i].leoCapacity, ls[i].geoCapacity);
      DetailRow(ls[i], ms, missions, rate);
      rows := rows + [row];
      assert ls[..i + 1][..i] == ls[..i];
      i := i + 1;
    }
    assert ls[..i] == ls;
    forall j | 0 <= j < |ls| ensures rows[j] == Detail(ls[j], ms) {
      DetailsAt(ls, ms, j);
    }
  }
}
