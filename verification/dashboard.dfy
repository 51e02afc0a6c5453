/**
 * The dashboard session (`GuyaneAerospatialeDashboard`): four tables built
 * once at start-up, of which the mission table then grows by at most one
 * planned mission per refresh.
 */
module Dashboard {
  import opened Calendar
  import opened Launchers
  import opened Missions
  import opened Traffic
  import opened Clients
  import opened Tally
  import opened Aggregation

  /** Below this many missions in the current year, a refresh adds one. */
  const LiveThreshold: nat := 12

  /** `len(missions_data[missions_data['date_lancement'].dt.year == year])`. */
  function CountInYear(ms: seq<Mission>, y: int): (c: nat)
    ensures c <= |ms|
  {
    |Select(ms, InYear(y))|
  }

  /**
   * A refresh at `now`: appends one planned mission when fewer than 12
   * missions are dated in the current year, and otherwise changes nothing.
   * The existing rows stay as they were, in order.
   */
  function LiveUpdate(ms: seq<Mission>, now: DateTime, d: LiveDraw): (r: seq<Mission>)
    requires ValidDateTime(now) && ValidLiveDraw(d)
    ensures |ms| <= |r| <= |ms| + 1
    ensures r[..|ms|] == ms
    ensures |r| == |ms| + 1 <==> CountInYear(ms, now.year) < LiveThreshold
  {
    if CountInYear(ms, now.year) < LiveThreshold then ms + [PlannedMission(now, d)] else ms
  }

  /** The appended row is a planned mission of the live kind, dated strictly after `now`. */
  lemma LiveUpdateAppendsPlanned(ms: seq<Mission>, now: DateTime, d: LiveDraw)
    requires ValidDateTime(now) && ValidLiveDraw(d)
    requires |LiveUpdate(ms, now, d)| > |ms|
    ensures var m := LiveUpdate(ms, now, d)[|ms|];
            && m.status == Planned
            && Instant(now) < Instant(m.launchDate)
            && DayNumber(now) + 1 <= DayNumber(m.launchDate) <= DayNumber(now) + 180
            && m.launchDate.second == now.second
            && m.launcher in [Vega, VegaC, Ariane5]
            && 1000 <= m.payloadMass <= 5000
            && IsMissionId(m.id, ["VV"], 230, 250)
  {
  }

  /** The year count is the number of times the year occurs in the year column. */
  lemma {:induction false} CountInYearIsYearCount(ms: seq<Mission>, y: int)
    ensures CountInYear(ms, y) == Count(Column(ms, YearKey), y)
    ensures CountInYear(ms, y) == 0 <==> forall m :: m in ms ==> m.launchDate.year != y
  {
    if ms != [] {
      var k := |ms| - 1;
      CountInYearIsYearCount(ms[..k], y);
      assert ms[..k] + [ms[k]] == ms;
      CountInYearSnoc(ms[..k], ms[k], y);
      CountColumnSnoc(ms, YearKey, y);
    }
    forall m | m in ms && m.launchDate.year == y ensures y in Column(ms, YearKey) {
      var i :| 0 <= i < |ms| && ms[i] == m;
      assert Column(ms, YearKey)[i] == y;
    }
  }

  /** Counting the rows of a year, one row at a time. */
  lemma CountInYearSnoc(ms: seq<Mission>, m: Mission, y: int)
    ensures CountInYear(ms + [m], y) == CountInYear(ms, y) + (if m.launchDate.year == y then 1 else 0)
  {
    var s := ms + [m];
    assert s[..|s| - 1] == ms;
    SelectSnoc(s, InYear(y));
  }

  /**
   * Refreshing never pushes the current year's count past 12 when it was at
   * most 12, and never changes it once it has reached 12.
   */
  lemma LiveUpdateThreshold(ms: seq<Mission>, now: DateTime, d: LiveDraw)
    requires ValidDateTime(now) && ValidLiveDraw(d)
    ensures CountInYear(ms, now.year) >= LiveThreshold ==> LiveUpdate(ms, now, d) == ms
    ensures CountInYear(ms, now.year) <= CountInYear(LiveUpdate(ms, now, d), now.year)
    ensures CountInYear(LiveUpdate(ms, now, d), now.year) <= if CountInYear(ms, now.year) < LiveThreshold then LiveThreshold else CountInYear(ms, now.year)
  {
    if CountInYear(ms, now.year) < LiveThreshold {
      CountInYearSnoc(ms, PlannedMission(now, d), now.year);
    }
  }

  /** Each appended row is one more upcoming planned mission for the metric at `now`. */
  lemma LiveUpdateAddsUpcoming(ms: seq<Mission>, now: DateTime, d: LiveDraw)
    requires ValidDateTime(now) && ValidLiveDraw(d)
    ensures |UpcomingPlanned(LiveUpdate(ms, now, d), now)|
            == |UpcomingPlanned(ms, now)| + (if CountInYear(ms, now.year) < LiveThreshold then 1 else 0)
  {
    if CountInYear(ms, now.year) < LiveThreshold {
      var s := LiveUpdate(ms, now, d);
      assert s[..|s| - 1] == ms;
      SelectSnoc(s, UpcomingMask(now));
    }
  }

  /** The dashboard object with its four tables. */
  class DashboardSession {
    var launchers: seq<Launcher>
    var missions: seq<Mission>
    var traffic: seq<TrafficSample>
    var clients: seq<ClientSegment>

    /** The first 100 rows are generated ones, every later row was added by a refresh. */
    predicate Valid()
      reads this
    {
      && launchers == DefineLaunchers()
      && |missions| >= MissionCount
      && (forall i :: 0 <= i < MissionCount ==> GeneratedMission(missions[i]))
      && (forall i :: MissionCount <= i < |missions| ==> LiveShaped(missions[i]))
      && (forall r :: r in traffic ==> TrafficRowOk(r))
      && ClientsOk(clients)
    }

    /** `__init__`: the four generators, with `now` and every random draw supplied. */
    constructor (now: DateTime, missionDraws: seq<MissionDraw>, trafficDraws: seq<seq<TrafficDraw>>,
                 clientDraws: seq<ClientDraw>)
      requires ValidDateTime(now)
      requires |missionDraws| == MissionCount && forall i :: 0 <= i < |missionDraws| ==> ValidMissionDraw(missionDraws[i])
      requires DrawGrid(MonthEnds(now), trafficDraws)
      requires forall i, j :: 0 <= i < |trafficDraws| && 0 <= j < |trafficDraws[i]| ==> ValidTrafficDraw(trafficDraws[i][j])
      requires |clientDraws| == SegmentCount && forall i :: 0 <= i < |clientDraws| ==> ValidClientDraw(clientDraws[i])
      ensures Valid()
      ensures launchers == DefineLaunchers()
      ensures |missions| == MissionCount && forall i :: 0 <= i < |missions| ==> missions[i] == MissionFromDraw(missionDraws[i])
      ensures traffic == TrafficSeries(MonthEnds(now), trafficDraws)
      ensures |clients| == SegmentCount && forall i :: 0 <= i < |clients| ==> clients[i] == Segment(ClientTable()[i], clientDraws[i])
    {
      launchers := DefineLaunchers();
      var ms := InitializeMissions(missionDraws);
      var ts := InitializeTraffic(MonthEnds(now), trafficDraws);
      var cs := InitializeClients(clientDraws);
      missions := ms;
      traffic := ts;
      clients := cs;
    }

    /** `update_live_data`: one refresh tick at `now`. */
    method UpdateLiveData(now: DateTime, d: LiveDraw)
      requires Valid() && ValidDateTime(now) && ValidLiveDraw(d)
      modifies this
      ensures Valid()
      ensures missions == LiveUpdate(old(missions), now, d)
      ensures launchers == old(launchers) && traffic == old(traffic) && clients == old(clients)
    {
      var current := Select(missions, InYear(now.year));
      if |current| < LiveThreshold {
        var m := PlannedMission(now, d);
        missions := missions + [m];
      }
    }
  }

  // ---------------------------------------------------------------------
  // What every session guarantees to the tabs that read it.

  /** Every mission row of a session is a generated or a live row. */
  lemma SessionRowsWellFormed(s: DashboardSession)
    requires s.Valid()
    ensures forall m :: m in s.missions ==> WellFormed(m)
  {
    forall m | m in s.missions ensures WellFormed(m) {
      var i :| 0 <= i < |s.missions| && s.missions[i] == m;
    }
  }

  /**
   * In any session, choosing one of the segment names offered by the client
   * selector empties the mission calendar.
   */
  lemma SessionSegmentOptionsNeverMatch(s: DashboardSession, c: string)
    requires s.Valid()
    requires c == "Commercial" || c == "Autres Institutionnels" || c == "Militaires"
    ensures FilteredMissions(s.missions, MissionFilter(All, All, Only(c))) == []
  {
    SessionRowsWellFormed(s);
    SegmentOptionsNeverMatch(s.missions, c);
  }

  /** In any session, the COVID tab's mass ratio is defined whenever its launch ratio is. */
  lemma SessionMassVariationFollowsLaunchVariation(s: DashboardSession)
    requires s.Valid()
    requires LaunchVariation(s.missions).Some?
    ensures MassVariation(s.missions).Some?
  {
    SessionRowsWellFormed(s);
    MassVariationFollowsLaunchVariation(s.missions);
  }
}
