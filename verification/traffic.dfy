/**
 * The monthly traffic series (`initialize_traffic_data`): one sample per
 * month end since January 2002 and per catalog launcher in service that year.
 */
module Traffic {
  import opened Wrappers
  import opened Calendar
  import opened Launchers

  const FirstTrafficYear: int := 2002
  /** Introduction year of Vega C, gated separately from its catalog entry. */
  const VegaCIntroduction: int := 2022

  datatype YearMonth = YearMonth(year: int, month: int)

  /** The month-end timestamp `pd.date_range(..., freq='M')` produces for a month. */
  function MonthEnd(ym: YearMonth): DateTime
    requires 1 <= ym.month <= 12
  {
    Midnight(ym.year, ym.month, DaysInMonth(ym.year, ym.month))
  }

  function NextMonth(ym: YearMonth): YearMonth {
    if ym.month < 12 then YearMonth(ym.year, ym.month + 1) else YearMonth(ym.year + 1, 1)
  }

  /** How many month ends lie between 2002-01-01 and `now`. */
  function MonthEndCount(now: DateTime): nat
    requires ValidDateTime(now)
  {
    var n := (now.year - FirstTrafficYear) * 12 + now.month - 1
             + (if now.day == DaysInMonth(now.year, now.month) then 1 else 0);
    if n < 0 then 0 else n
  }

  /** `pd.date_range('2002-01-01', now, freq='M')`, as (year, month) pairs. */
  function MonthEnds(now: DateTime): (ms: seq<YearMonth>)
    requires ValidDateTime(now)
    ensures |ms| == MonthEndCount(now)
    ensures forall i :: 0 <= i < |ms| ==> FirstTrafficYear <= ms[i].year <= now.year && 1 <= ms[i].month <= 12
    ensures |ms| > 0 ==> ms[0] == YearMonth(FirstTrafficYear, 1)
    ensures forall i :: 0 < i < |ms| ==> ms[i] == NextMonth(ms[i - 1])
  {
    seq(MonthEndCount(now), i requires 0 <= i => YearMonth(FirstTrafficYear + i / 12, i % 12 + 1))
  }

  /** Every listed month has ended by `now`. */
  lemma MonthEndsAreNotAfterNow(now: DateTime, i: int)
    requires ValidDateTime(now) && 0 <= i < |MonthEnds(now)|
    ensures Instant(MonthEnd(MonthEnds(now)[i])) <= Instant(now)
  {
    var ym := MonthEnds(now)[i];
    InstantIsChronological(MonthEnd(ym), now);
  }

  /** Every month since January 2002 whose end is not after `now` is listed. */
  lemma MonthEndsAreComplete(now: DateTime, ym: YearMonth)
    requires ValidDateTime(now)
    requires FirstTrafficYear <= ym.year && 1 <= ym.month <= 12
    requires Instant(MonthEnd(ym)) <= Instant(now)
    ensures ym in MonthEnds(now)
  {
    var i := (ym.year - FirstTrafficYear) * 12 + ym.month - 1;
    InstantIsChronological(MonthEnd(ym), now);
    assert i / 12 == ym.year - FirstTrafficYear && i % 12 == ym.month - 1;
    assert i < MonthEndCount(now);
    assert MonthEnds(now)[i] == ym;
  }

  /** The draws behind one sample: `uniform(0.8, 1.2)`, `randint(1, 4)`, `randint(1000, 20000)`. */
  datatype TrafficDraw = TrafficDraw(u: real, satFactor: int, massFactor: int)

  predicate ValidTrafficDraw(d: TrafficDraw) {
    0.8 <= d.u <= 1.2 && 1 <= d.satFactor <= 4 && 1000 <= d.massFactor <= 20000
  }

  datatype TrafficSample = TrafficSample(
    month: YearMonth,
    launcher: LauncherId,
    launches: int,
    satellites: int,
    totalMass: int,
    launcherType: string)

  /** Launches per year the series assumes for a launcher (1 for any other). */
  function BaseCadence(id: LauncherId): (b: int)
    ensures 1 <= b <= 7
    ensures id == Ariane6 ==> b == 1
  {
    match id
    case Ariane5 => 7
    case Vega => 3
    case Soyuz => 2
    case VegaC => 2
    case Ariane6 => 1
  }

  /** `max(0, int(base / 12 * u))`. */
  function MonthlyLaunches(base: int, u: real): (n: int)
    ensures n >= 0
    ensures n == 0 <==> (base as real) / 12.0 * u < 1.0
  {
    var x := (base as real) / 12.0 * u;
    if x.Floor > 0 then x.Floor else 0
  }

  /** With at most 7 launches a year and a factor of at most 1.2, the monthly count is always 0. */
  lemma MonthlyLaunchesIsZero(base: int, u: real)
    requires 0 <= base <= 7 && 0.0 <= u <= 1.2
    ensures MonthlyLaunches(base, u) == 0
  {
    var b := (base as real) / 12.0;
    if base == 0 { assert b == 0.0; }
    else if base == 1 { assert b == 1.0 / 12.0; }
    else if base == 2 { assert b == 2.0 / 12.0; }
    else if base == 3 { assert b == 3.0 / 12.0; }
    else if base == 4 { assert b == 4.0 / 12.0; }
    else if base == 5 { assert b == 5.0 / 12.0; }
    else if base == 6 { assert b == 6.0 / 12.0; }
    else { assert b == 7.0 / 12.0; }
  }

  /** The sample for a month and a launcher, or None when the loop skips the pair. */
  function TrafficRow(ym: YearMonth, l: Launcher, d: TrafficDraw): (r: Option<TrafficSample>)
    ensures r.Some? <==> l.firstFlight <= ym.year && (l.id == VegaC ==> VegaCIntroduction <= ym.year)
    ensures r.Some? ==> r.value.month == ym && r.value.launcher == l.id && r.value.launches >= 0
    ensures r.Some? ==> r.value.satellites == d.satFactor * r.value.launches
    ensures r.Some? ==> r.value.totalMass == d.massFactor * r.value.launches
  {
    if ym.year < l.firstFlight then None
    else if l.id == VegaC && ym.year < VegaCIntroduction then None
    else
      var n := MonthlyLaunches(BaseCadence(l.id), d.u);
      Some(TrafficSample(ym, l.id, n, d.satFactor * n, d.massFactor * n, l.vehicleType))
  }

  /** The samples of one month, launcher by launcher. */
  function MonthRows(ym: YearMonth, ls: seq<Launcher>, ds: seq<TrafficDraw>): (rows: seq<TrafficSample>)
    requires |ds| == |ls|
    ensures |rows| <= |ls|
  {
    if ls == [] then []
    else
      var k := |ls| - 1;
      var row := TrafficRow(ym, ls[k], ds[k]);
      MonthRows(ym, ls[..k], ds[..k]) + (if row.Some? then [row.value] else [])
  }

  predicate DrawGrid(months: seq<YearMonth>, draws: seq<seq<TrafficDraw>>) {
    && |draws| == |months|
    && forall i :: 0 <= i < |draws| ==> |draws[i]| == |DefineLaunchers()|
  }

  /** The whole series, month by month. */
  function TrafficSeries(months: seq<YearMonth>, draws: seq<seq<TrafficDraw>>): (rows: seq<TrafficSample>)
    requires DrawGrid(months, draws)
    ensures |rows| <= |DefineLaunchers()| * |months|
  {
    if months == [] then []
    else
      var k := |months| - 1;
      TrafficSeries(months[..k], draws[..k]) + MonthRows(months[k], DefineLaunchers(), draws[k])
  }

  /** What every sample of the series satisfies. */
  predicate TrafficRowOk(r: TrafficSample) {
    && FirstFlight(r.launcher) <= r.month.year
    && (r.launcher == VegaC ==> VegaCIntroduction <= r.month.year)
    && r.launches == 0 && r.satellites == 0 && r.totalMass == 0
  }

  lemma {:induction false} MonthRowsOk(ym: YearMonth, ls: seq<Launcher>, ds: seq<TrafficDraw>)
    requires |ds| == |ls|
    requires forall j :: 0 <= j < |ls| ==> ls[j] == Lookup(ls[j].id)
    requires forall j :: 0 <= j < |ds| ==> ValidTrafficDraw(ds[j])
    ensures forall r :: r in MonthRows(ym, ls, ds) ==> TrafficRowOk(r) && r.month == ym
  {
    if ls != [] {
      var k := |ls| - 1;
      MonthRowsOk(ym, ls[..k], ds[..k]);
      var row := TrafficRow(ym, ls[k], ds[k]);
      if row.Some? {
        MonthlyLaunchesIsZero(BaseCadence(ls[k].id), ds[k].u);
      }
    }
  }

  lemma {:induction false} TrafficSeriesOk(months: seq<YearMonth>, draws: seq<seq<TrafficDraw>>)
    requires DrawGrid(months, draws)
    requires forall i, j :: 0 <= i < |draws| && 0 <= j < |draws[i]| ==> ValidTrafficDraw(draws[i][j])
    ensures forall r :: r in TrafficSeries(months, draws) ==> TrafficRowOk(r) && r.month in months
  {
    if months != [] {
      var k := |months| - 1;
      TrafficSeriesOk(months[..k], draws[..k]);
      forall j | 0 <= j < 5 ensures DefineLaunchers()[j] == Lookup(DefineLaunchers()[j].id) {
      }
      MonthRowsOk(months[k], DefineLaunchers(), draws[k]);
    }
  }

  /** A month and a launcher that pass both gates get their sample. */
  lemma {:induction false} MonthRowsComplete(ym: YearMonth, ls: seq<Launcher>, ds: seq<TrafficDraw>, j: int)
    requires |ds| == |ls| && 0 <= j < |ls|
    requires TrafficRow(ym, ls[j], ds[j]).Some?
    ensures TrafficRow(ym, ls[j], ds[j]).value in MonthRows(ym, ls, ds)
  {
    var k := |ls| - 1;
    if j < k {
      MonthRowsComplete(ym, ls[..k], ds[..k], j);
    }
  }

  lemma {:induction false} TrafficSeriesComplete(months: seq<YearMonth>, draws: seq<seq<TrafficDraw>>, i: int, j: int)
    requires DrawGrid(months, draws) && 0 <= i < |months| && 0 <= j < 5
    requires DefineLaunchers()[j].firstFlight <= months[i].year
    requires DefineLaunchers()[j].id == VegaC ==> VegaCIntroduction <= months[i].year
    ensures TrafficRow(months[i], DefineLaunchers()[j], draws[i][j]).Some?
    ensures TrafficRow(months[i], DefineLaunchers()[j], draws[i][j]).value in TrafficSeries(months, draws)
  {
    var k := |months| - 1;
    if i < k {
      TrafficSeriesComplete(months[..k], draws[..k], i, j);
    } else {
      MonthRowsComplete(months[k], DefineLaunchers(), draws[k], j);
    }
  }

  /** No two samples share a month and a launcher. */
  predicate UniqueKeys(rows: seq<TrafficSample>) {
    forall a, b :: 0 <= a < b < |rows| ==> rows[a].month != rows[b].month || rows[a].launcher != rows[b].launcher
  }

  lemma UniqueKeysAppend(xs: seq<TrafficSample>, ys: seq<TrafficSample>)
    requires UniqueKeys(xs) && UniqueKeys(ys)
    requires forall r, t :: r in xs && t in ys ==> r.month != t.month || r.launcher != t.launcher
    ensures UniqueKeys(xs + ys)
  {
    var zs := xs + ys;
    forall a, b | 0 <= a < b < |zs| ensures zs[a].month != zs[b].month || zs[a].launcher != zs[b].launcher {
      if b < |xs| {
        assert zs[a] == xs[a] && zs[b] == xs[b];
      } else if a >= |xs| {
        assert zs[a] == ys[a - |xs|] && zs[b] == ys[b - |xs|];
      } else {
        assert zs[a] == xs[a] && zs[b] == ys[b - |xs|];
      }
    }
  }

  /** The samples of a month are all dated that month and belong to launchers of the list. */
  lemma {:induction false} MonthRowsLaunchers(ym: YearMonth, ls: seq<Launcher>, ds: seq<TrafficDraw>)
    requires |ds| == |ls|
    ensures forall r :: r in MonthRows(ym, ls, ds) ==> r.month == ym && exists j :: 0 <= j < |ls| && r.launcher == ls[j].id
  {
    if ls != [] {
      var k := |ls| - 1;
      MonthRowsLaunchers(ym, ls[..k], ds[..k]);
      forall r | r in MonthRows(ym, ls[..k], ds[..k])
        ensures exists j :: 0 <= j < |ls| && r.launcher == ls[j].id
      {
        var j :| 0 <= j < k && r.launcher == ls[..k][j].id;
        assert ls[..k][j] == ls[j];
      }
    }
  }

  /** With distinct launchers, a month has at most one sample per launcher. */
  lemma {:induction false} MonthRowsUnique(ym: YearMonth, ls: seq<Launcher>, ds: seq<TrafficDraw>)
    requires |ds| == |ls|
    requires forall i, j :: 0 <= i < j < |ls| ==> ls[i].id != ls[j].id
    ensures UniqueKeys(MonthRows(ym, ls, ds))
  {
    if ls != [] {
      var k := |ls| - 1;
      var front := MonthRows(ym, ls[..k], ds[..k]);
      var row := TrafficRow(ym, ls[k], ds[k]);
      var tail := if row.Some? then [row.value] else [];
      MonthRowsUnique(ym, ls[..k], ds[..k]);
      MonthRowsLaunchers(ym, ls[..k], ds[..k]);
      forall r, t | r in front && t in tail ensures r.month != t.month || r.launcher != t.launcher {
        var j :| 0 <= j < k && r.launcher == ls[..k][j].id;
        assert ls[..k][j] == ls[j];
      }
      UniqueKeysAppend(front, tail);
    }
  }

  /** Every sample of the series is dated one of the series' months. */
  lemma {:induction false} TrafficSeriesMonths(months: seq<YearMonth>, draws: seq<seq<TrafficDraw>>)
    requires DrawGrid(months, draws)
    ensures forall r :: r in TrafficSeries(months, draws) ==> r.month in months[..]
  {
    if months != [] {
      var k := |months| - 1;
      TrafficSeriesMonths(months[..k], draws[..k]);
      MonthRowsLaunchers(months[k], DefineLaunchers(), draws[k]);
    }
  }

  /** Over distinct months, the series never holds two samples for the same month and launcher. */
  lemma {:induction false} TrafficSeriesUnique(months: seq<YearMonth>, draws: seq<seq<TrafficDraw>>)
    requires DrawGrid(months, draws)
    requires forall i, j :: 0 <= i < j < |months| ==> months[i] != months[j]
    ensures UniqueKeys(TrafficSeries(months, draws))
  {
    if months != [] {
      var k := |months| - 1;
      var front := TrafficSeries(months[..k], draws[..k]);
      var rows := MonthRows(months[k], DefineLaunchers(), draws[k]);
      TrafficSeriesUnique(months[..k], draws[..k]);
      TrafficSeriesMonths(months[..k], draws[..k]);
      forall i, j | 0 <= i < j < 5 ensures DefineLaunchers()[i].id != DefineLaunchers()[j].id {
        CatalogKeysAreDistinct(i, j);
      }
      MonthRowsUnique(months[k], DefineLaunchers(), draws[k]);
      MonthRowsLaunchers(months[k], DefineLaunchers(), draws[k]);
      forall r, t | r in front && t in rows ensures r.month != t.month {
        var i :| 0 <= i < k && months[..k][i] == r.month;
      }
      UniqueKeysAppend(front, rows);
    }
  }

  /** The month ends of the series are pairwise distinct. */
  lemma MonthEndsAreDistinct(now: DateTime)
    requires ValidDateTime(now)
    ensures forall i, j :: 0 <= i < j < |MonthEnds(now)| ==> MonthEnds(now)[i] != MonthEnds(now)[j]
  {
    var ms := MonthEnds(now);
    forall i, j | 0 <= i < j < |ms| ensures ms[i] != ms[j] {
      assert i == i / 12 * 12 + i % 12 && j == j / 12 * 12 + j % 12;
    }
  }

  /**
   * In the series built over the month ends, a sample for a month and a
   * launcher that pass both gates is exactly the one the pair draws: each
   * such pair has one sample and no other.
   */
  lemma SampleIsUnique(now: DateTime, draws: seq<seq<TrafficDraw>>, i: int, j: int, a: int)
    requires ValidDateTime(now) && DrawGrid(MonthEnds(now), draws)
    requires 0 <= i < |MonthEnds(now)| && 0 <= j < 5
    requires DefineLaunchers()[j].firstFlight <= MonthEnds(now)[i].year
    requires DefineLaunchers()[j].id == VegaC ==> VegaCIntroduction <= MonthEnds(now)[i].year
    requires 0 <= a < |TrafficSeries(MonthEnds(now), draws)|
    requires TrafficSeries(MonthEnds(now), draws)[a].month == MonthEnds(now)[i]
    requires TrafficSeries(MonthEnds(now), draws)[a].launcher == DefineLaunchers()[j].id
    ensures TrafficSeries(MonthEnds(now), draws)[a] == TrafficRow(MonthEnds(now)[i], DefineLaunchers()[j], draws[i][j]).value
  {
    var months := MonthEnds(now);
    var series := TrafficSeries(months, draws);
    var row := TrafficRow(months[i], DefineLaunchers()[j], draws[i][j]);
    TrafficSeriesComplete(months, draws, i, j);
    MonthEndsAreDistinct(now);
    TrafficSeriesUnique(months, draws);
    var b :| 0 <= b < |series| && series[b] == row.value;
  }

  /** Vega C's own gate is redundant: its catalog first flight is already 2022. */
  lemma VegaCGateIsRedundant()
    ensures FirstFlight(VegaC) == VegaCIntroduction
  {
  }

  /** The inner loop of `initialize_traffic_data`: one month, launcher by launcher. */
  method AppendMonthRows(rows: seq<TrafficSample>, ym: YearMonth, ls: seq<Launcher>, ds: seq<TrafficDraw>)
    returns (out: seq<TrafficSample>)
    requires |ds| == |ls|
    ensures out == rows + MonthRows(ym, ls, ds)
  {
    out := rows;
    var j := 0;
    while j < |ls|
      invariant 0 <= j <= |ls|
      invariant out == rows + MonthRows(ym, ls[..j], ds[..j])
    {
      var row := TrafficRow(ym, ls[j], ds[j]);
      assert ls[..j + 1][..j] == ls[..j] && ds[..j + 1][..j] == ds[..j];
      if row.Some? {
        out := out + [row.value];
      }
      j := j + 1;
    }
    assert ls[..j] == ls && ds[..j] == ds;
  }

  /** `initialize_traffic_data`: the outer loop over month ends. */
  method InitializeTraffic(months: seq<YearMonth>, draws: seq<seq<TrafficDraw>>) returns (rows: seq<TrafficSample>)
    requires DrawGrid(months, draws)
    requires forall i, j :: 0 <= i < |draws| && 0 <= j < |draws[i]| ==> ValidTrafficDraw(draws[i][j])
    ensures rows == TrafficSeries(months, draws)
    ensures forall r :: r in rows ==> TrafficRowOk(r) && r.month in months
  {
    rows := [];
    var i := 0;
    while i < |months|
      invariant 0 <= i <= |months|
      invariant rows == TrafficSeries(months[..i], draws[..i])
    {
      rows := AppendMonthRows(rows, months[i], DefineLaunchers(), draws[i]);
      assert months[..i + 1][..i] == months[..i] && draws[..i + 1][..i] == draws[..i];
      i := i + 1;
    }
    assert months[..i] == months && draws[..i] == draws;
    TrafficSeriesOk(months, draws);
  }

  function SatellitesTotal(rows: seq<TrafficSample>): int {
    if rows == [] then 0 else SatellitesTotal(rows[..|rows| - 1]) + rows[|rows| - 1].satellites
  }

  /** The "satellites launched" metric over a generated series is always 0. */
  lemma {:induction false} SatellitesTotalIsZero(rows: seq<TrafficSample>)
    requires forall r :: r in rows ==> TrafficRowOk(r)
    ensures SatellitesTotal(rows) == 0
  {
    if rows != [] {
      assert rows[|rows| - 1] in rows;
      SatellitesTotalIsZero(rows[..|rows| - 1]);
    }
  }
}
