/**
 * The "Projections Futures" tab: the historical yearly launch counts from
 * 2018 on, followed by one projected point per year up to 2030.
 */
module Projection {
  import opened Wrappers
  import opened Missions
  import opened Tally
  import opened Aggregation

  const HorizonYear: int := 2030
  const HistoryStart: int := 2018

  /** `dt.year.max()` of the mission table; None for an empty table. */
  function LastYear(ms: seq<Mission>): (r: Option<int>)
    ensures r.None? <==> ms == []
    ensures r.Some? ==> r.value in Column(ms, YearKey)
    ensures r.Some? ==> forall m :: m in ms ==> m.launchDate.year <= r.value
  {
    if ms == [] then None
    else
      var init, y := ms[..|ms| - 1], ms[|ms| - 1].launchDate.year;
      assert ms == init + [ms[|ms| - 1]];
      assert Column(ms, YearKey)[|ms| - 1] == y;
      match LastYear(init)
      case None => Some(y)
      case Some(x) =>
        if x >= y then
          var k :| 0 <= k < |init| && Column(init, YearKey)[k] == x;
          assert Column(ms, YearKey)[k] == x;
          Some(x)
        else Some(y)
  }

  /** The label of a point of the chart. */
  datatype SeriesKind = Historical | Projected

  /**
   * A point of the chart. The projected launch count is a floating-point
   * growth formula and is not part of this model, hence `launches` is None
   * on projected points.
   */
  datatype ChartPoint = ChartPoint(year: int, launches: Option<nat>, kind: SeriesKind)

  /** `range(last + 1, 2031)`. */
  function ProjectionYears(last: int): (ys: seq<int>)
    ensures |ys| == if last < HorizonYear then HorizonYear - last else 0
    ensures forall i :: 0 <= i < |ys| ==> ys[i] == last + 1 + i
    ensures forall y :: y in ys <==> last < y <= HorizonYear
  {
    var n := if last < HorizonYear then HorizonYear - last else 0;
    var ys := seq(n, i requires 0 <= i < n => last + 1 + i);
    forall y | last < y <= HorizonYear ensures y in ys {
      assert ys[y - last - 1] == y;
    }
    ys
  }

  /** The projected points, one per year, in the order the source's loop appends them. */
  function ProjectedPoints(years: seq<int>): (ps: seq<ChartPoint>)
    ensures |ps| == |years|
    ensures forall i :: 0 <= i < |ps| ==> ps[i].year == years[i] && ps[i].kind == Projected
  {
    if years == [] then []
    else ProjectedPoints(years[..|years| - 1]) + [ChartPoint(years[|years| - 1], None, Projected)]
  }

  /** The loop that fills `projection_data`. */
  method BuildProjection(last: int) returns (points: seq<ChartPoint>)
    ensures points == ProjectedPoints(ProjectionYears(last))
    ensures |points| == if last < HorizonYear then HorizonYear - last else 0
    ensures forall i :: 0 <= i < |points| ==>
              points[i].year == last + 1 + i && last < points[i].year <= HorizonYear && points[i].kind == Projected
  {
    var years := ProjectionYears(last);
    points := [];
    var i := 0;
    while i < |years|
      invariant 0 <= i <= |years|
      invariant points == ProjectedPoints(years[..i])
    {
      assert years[..i + 1][..i] == years[..i];
      points := points + [ChartPoint(years[i], None, Projected)];
      i := i + 1;
    }
    assert years[..i] == years;
  }

  /** The historical points: launches per year among the missions of 2018 and later. */
  function HistoricalPoints(ms: seq<Mission>): (ps: seq<ChartPoint>)
    ensures |ps| == |LaunchesByYear(Select(ms, FromYear(HistoryStart)))|
    ensures forall i :: 0 <= i < |ps| ==> ps[i].kind == Historical && ps[i].launches.Some?
    ensures forall i :: 0 <= i < |ps| ==>
              ps[i].year == LaunchesByYear(Select(ms, FromYear(HistoryStart)))[i].0
              && ps[i].launches.value == LaunchesByYear(Select(ms, FromYear(HistoryStart)))[i].1
    ensures forall i, j :: 0 <= i < j < |ps| ==> ps[i].year < ps[j].year
  {
    var g := LaunchesByYear(Select(ms, FromYear(HistoryStart)));
    seq(|g|, i requires 0 <= i < |g| => ChartPoint(g[i].0, Some(g[i].1), Historical))
  }

  /** Every historical point is a year of 2018 or later that has missions. */
  lemma HistoricalYears(ms: seq<Mission>, i: int)
    requires 0 <= i < |HistoricalPoints(ms)|
    ensures var p := HistoricalPoints(ms)[i];
            && p.year >= HistoryStart
            && p.year in Column(ms, YearKey)
            && p.launches.value == Count(Column(ms, YearKey), p.year)
  {
    var sel := Select(ms, FromYear(HistoryStart));
    var g := LaunchesByYear(sel);
    var y := g[i].0;
    assert y in Keys(g);
    var k :| 0 <= k < |sel| && Column(sel, YearKey)[k] == y;
    assert FromYear(HistoryStart)(sel[k]);
    SelectedColumnIsInColumn(ms, FromYear(HistoryStart), YearKey, y);
    YearCountOfSelection(ms, y);
  }

  /** Keeping the missions from 2018 on keeps each such year's count. */
  lemma {:induction false} YearCountOfSelection(ms: seq<Mission>, y: int)
    requires y >= HistoryStart
    ensures Count(Column(Select(ms, FromYear(HistoryStart)), YearKey), y) == Count(Column(ms, YearKey), y)
  {
    if ms != [] {
      YearCountOfSelection(ms[..|ms| - 1], y);
      CountColumnSnoc(ms, YearKey, y);
      CountSelectedColumnSnoc(ms, FromYear(HistoryStart), YearKey, y);
    }
  }

  /** `pd.concat([historical_yearly, df_projection])`. */
  function CombinedSeries(ms: seq<Mission>): (ps: seq<ChartPoint>)
    ensures ms == [] ==> ps == []
    ensures ms != [] ==> |ps| == |HistoricalPoints(ms)| + |ProjectionYears(LastYear(ms).value)|
  {
    match LastYear(ms)
    case None => []
    case Some(last) => HistoricalPoints(ms) + ProjectedPoints(ProjectionYears(last))
  }

  /**
   * The chart's years strictly increase: historical years are at most the
   * last mission year, projected years follow it one by one up to 2030.
   */
  lemma CombinedYearsIncrease(ms: seq<Mission>)
    ensures forall i, j :: 0 <= i < j < |CombinedSeries(ms)| ==> CombinedSeries(ms)[i].year < CombinedSeries(ms)[j].year
  {
    if ms != [] {
      var last := LastYear(ms).value;
      var h := HistoricalPoints(ms);
      var p := ProjectedPoints(ProjectionYears(last));
      assert CombinedSeries(ms) == h + p;
      HistoryEndsByLastYear(ms);
      ProjectedYearsFollow(last);
      JoinIncreasing(h, p, last);
    }
  }

  /** The projected points are the years after `last`, one by one. */
  lemma ProjectedYearsFollow(last: int)
    ensures forall i :: 0 <= i < |ProjectedPoints(ProjectionYears(last))| ==>
              ProjectedPoints(ProjectionYears(last))[i].year == last + 1 + i
  {
  }

  lemma HistoryEndsByLastYear(ms: seq<Mission>)
    requires ms != []
    ensures forall i :: 0 <= i < |HistoricalPoints(ms)| ==> HistoricalPoints(ms)[i].year <= LastYear(ms).value
  {
    var h := HistoricalPoints(ms);
    forall i | 0 <= i < |h| ensures h[i].year <= LastYear(ms).value {
      HistoricalYears(ms, i);
      var k :| 0 <= k < |ms| && Column(ms, YearKey)[k] == h[i].year;
      assert ms[k] in ms;
    }
  }

  /** Two increasing runs separated by `last` join into one increasing run. */
  lemma JoinIncreasing(h: seq<ChartPoint>, p: seq<ChartPoint>, last: int)
    requires forall i, j :: 0 <= i < j < |h| ==> h[i].year < h[j].year
    requires forall i :: 0 <= i < |h| ==> h[i].year <= last
    requires forall i :: 0 <= i < |p| ==> p[i].year == last + 1 + i
    ensures forall i, j :: 0 <= i < j < |h + p| ==> (h + p)[i].year < (h + p)[j].year
  {
    var c := h + p;
    forall i, j | 0 <= i < j < |c| ensures c[i].year < c[j].year {
      if j < |h| {
        assert c[i] == h[i] && c[j] == h[j];
      } else if i < |h| {
        assert c[i] == h[i] && c[j] == p[j - |h|];
      } else {
        assert c[i] == p[i - |h|] && c[j] == p[j - |h|];
      }
    }
  }

  /** Historical points come first, then exactly the years after the last mission up to 2030. */
  lemma CombinedSeriesLabels(ms: seq<Mission>)
    requires ms != []
    ensures var c := CombinedSeries(ms);
            var n := |HistoricalPoints(ms)|;
            var last := LastYear(ms).value;
            && n <= |c|
            && (forall i :: 0 <= i < n ==> c[i].kind == Historical && c[i].year >= HistoryStart)
            && (forall i :: n <= i < |c| ==> c[i].kind == Projected && c[i].year == last + 1 + (i - n))
            && |c| - n == if last < HorizonYear then HorizonYear - last else 0
  {
    var c := CombinedSeries(ms);
    var h := HistoricalPoints(ms);
    forall i | 0 <= i < |h| ensures c[i].kind == Historical && c[i].year >= HistoryStart {
      HistoricalYears(ms, i);
    }
  }
}
