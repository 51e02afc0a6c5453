/**
 * Mission records, the start-up generator (`initialize_missions_data`) and
 * the planned mission that a live update adds (`update_live_data`).
 * Every random draw is an explicit input whose range is what the random
 * source guarantees.
 */
module Missions {
  import opened Calendar
  import opened Launchers
  import opened Text

  datatype MissionStatus = Success | Failure | PartialSuccess | Planned
  datatype MissionType = Commercial | Institutional | Scientific | Military | EarthObservation
  datatype Orbit = GEO | LEO | SSO | MEO | HEO | LunarTransfer
  datatype PayloadKind = TelecomPayload | ObservationPayload | ScientificPayload | NavigationPayload
  datatype LaunchSite = ELA3 | ELS | ELV

  /** `charge_utile`, the text "Satellite <kind> <serial>", kept as its two parts. */
  datatype Payload = Payload(kind: PayloadKind, serial: int)

  datatype Mission = Mission(
    id: string,
    launcher: LauncherId,
    launchDate: DateTime,
    client: string,
    missionType: MissionType,
    orbit: Orbit,
    status: MissionStatus,
    payload: Payload,
    payloadMass: int,
    site: LaunchSite)

  /** Number of rows the start-up generator builds. */
  const MissionCount: nat := 100

  const MissionTypes: seq<MissionType> := [Commercial, Institutional, Scientific, Military, EarthObservation]
  const MissionClients: seq<string> :=
    ["ESA", "NASA", "CNES", "Eutelsat", "SES", "Intelsat", "OneWeb", "Airbus", "Thales", "SpaceX (Transports)"]
  const Orbits: seq<Orbit> := [GEO, LEO, SSO, MEO, HEO, LunarTransfer]
  const IdPrefixes: seq<string> := ["VA", "VV", "VS", "AR"]
  const PayloadKinds: seq<PayloadKind> := [TelecomPayload, ObservationPayload, ScientificPayload, NavigationPayload]
  const Sites: seq<LaunchSite> := [ELA3, ELS, ELV]

  function OrbitName(o: Orbit): string {
    match o
    case GEO => "GEO"
    case LEO => "LEO"
    case SSO => "SSO"
    case MEO => "MEO"
    case HEO => "HEO"
    case LunarTransfer => "Lunar Transfer"
  }

  /** Position of an orbit's name among the names sorted alphabetically. */
  function OrbitRank(o: Orbit): (r: int)
    ensures 0 <= r < 6
  {
    match o
    case GEO => 0
    case HEO => 1
    case LEO => 2
    case LunarTransfer => 3
    case MEO => 4
    case SSO => 5
  }

  /** The orbit names sorted alphabetically. */
  const SortedOrbitNames: seq<string> := ["GEO", "HEO", "LEO", "Lunar Transfer", "MEO", "SSO"]

  lemma SortedOrbitNamesAscend()
    ensures Ascending(SortedOrbitNames)
  {
    assert LexLess(SortedOrbitNames[0], SortedOrbitNames[1]);
    assert LexLess(SortedOrbitNames[1], SortedOrbitNames[2]);
    assert LexLess(SortedOrbitNames[2], SortedOrbitNames[3]);
    assert LexLess(SortedOrbitNames[3], SortedOrbitNames[4]);
    assert LexLess(SortedOrbitNames[4], SortedOrbitNames[5]);
  }

  lemma OrbitRankIsAlphabetical(a: Orbit, b: Orbit)
    ensures OrbitRank(a) < OrbitRank(b) <==> LexLess(OrbitName(a), OrbitName(b))
    ensures OrbitRank(a) == OrbitRank(b) <==> a == b
  {
    SortedOrbitNamesAscend();
    assert OrbitName(a) == SortedOrbitNames[OrbitRank(a)] && OrbitName(b) == SortedOrbitNames[OrbitRank(b)];
    AscendingOrder(SortedOrbitNames, OrbitRank(a), OrbitRank(b));
  }

  // ---------------------------------------------------------------------
  // Mission identifiers: a two-letter prefix followed by a decimal number.

  predicate IsDigit(c: char) {
    '0' <= c <= '9'
  }

  function DigitChar(d: int): (c: char)
    requires 0 <= d <= 9
    ensures IsDigit(c) && c as int - '0' as int == d
  {
    ('0' as int + d) as char
  }

  /** `str(n)` for a three-digit number. */
  function ThreeDigits(n: int): (s: string)
    requires 100 <= n <= 999
    ensures |s| == 3 && forall i :: 0 <= i < 3 ==> IsDigit(s[i])
    ensures s[0] != '0'
  {
    [DigitChar(n / 100), DigitChar(n / 10 % 10), DigitChar(n % 10)]
  }

  /** The number a string of decimal digits denotes. */
  function DigitsValue(s: string): int
    requires forall i :: 0 <= i < |s| ==> IsDigit(s[i])
  {
    if s == [] then 0
    else DigitsValue(s[..|s| - 1]) * 10 + (s[|s| - 1] as int - '0' as int)
  }

  lemma ThreeDigitsRoundTrip(n: int)
    requires 100 <= n <= 999
    ensures DigitsValue(ThreeDigits(n)) == n
  {
    var s := ThreeDigits(n);
    var a, b, c := n / 100, n / 10 % 10, n % 10;
    assert s[..1][..0] == [];
    assert DigitsValue(s[..1]) == a;
    assert s[..2][..1] == s[..1];
    assert DigitsValue(s[..2]) == a * 10 + b;
    assert s[..3][..2] == s[..2] && s[..3] == s;
    assert n / 10 == a * 10 + b && n == n / 10 * 10 + c;
  }

  /** `prefix + str(n)`: the prefix followed by the three decimal digits that read back as n. */
  function MissionId(prefix: string, n: int): (id: string)
    requires 100 <= n <= 999
    ensures |id| == |prefix| + 3 && id[..|prefix|] == prefix
    ensures forall i :: |prefix| <= i < |id| ==> IsDigit(id[i])
    ensures DigitsValue(id[|prefix|..]) == n
  {
    var id := prefix + ThreeDigits(n);
    assert id[|prefix|..] == ThreeDigits(n);
    ThreeDigitsRoundTrip(n);
    id
  }

  /** `id` is one of `prefixes` followed by a number in [lo, hi] written in decimal. */
  predicate IsMissionId(id: string, prefixes: seq<string>, lo: int, hi: int) {
    && |id| == 5
    && id[..2] in prefixes
    && (forall i :: 2 <= i < 5 ==> IsDigit(id[i]))
    && lo <= DigitsValue(id[2..]) <= hi
  }

  lemma MissionIdShape(prefix: string, prefixes: seq<string>, n: int, lo: int, hi: int)
    requires prefix in prefixes && |prefix| == 2
    requires 100 <= lo <= n <= hi <= 999
    ensures IsMissionId(MissionId(prefix, n), prefixes, lo, hi)
  {
    var id := MissionId(prefix, n);
    assert id[..2] == prefix;
  }

  // ---------------------------------------------------------------------
  // The start-up generator.

  /**
   * The draws for one generated row: `randint` results, indexes for each
   * `random.choice`, and the two `random.random()` values behind the status.
   */
  datatype MissionDraw = MissionDraw(
    year: int, month: int, day: int,
    launcherIndex: int,
    successRoll: real, outcomeRoll: real,
    prefixIndex: int, idNumber: int,
    clientIndex: int, typeIndex: int, orbitIndex: int,
    payloadKindIndex: int, payloadSerial: int,
    mass: int, siteIndex: int)

  predicate ValidMissionDraw(d: MissionDraw) {
    && 2002 <= d.year <= 2025 && 1 <= d.month <= 12 && 1 <= d.day <= 28
    && 0 <= d.launcherIndex < |CatalogOrder|
    && 0.0 <= d.successRoll < 1.0 && 0.0 <= d.outcomeRoll < 1.0
    && 0 <= d.prefixIndex < |IdPrefixes| && 200 <= d.idNumber <= 299
    && 0 <= d.clientIndex < |MissionClients|
    && 0 <= d.typeIndex < |MissionTypes|
    && 0 <= d.orbitIndex < |Orbits|
    && 0 <= d.payloadKindIndex < |PayloadKinds| && 1 <= d.payloadSerial <= 100
    && 100 <= d.mass <= 10000
    && 0 <= d.siteIndex < |Sites|
  }

  /**
   * The two-stage status choice: success when the first roll exceeds 0.1,
   * otherwise a 0.7 / 0.3 weighted choice between failure and partial success.
   */
  function DrawStatus(successRoll: real, outcomeRoll: real): (s: MissionStatus)
    ensures s != Planned
    ensures s == Success <==> successRoll > 0.1
    ensures s == Failure <==> successRoll <= 0.1 && outcomeRoll < 0.7
  {
    if successRoll > 0.1 then Success
    else if outcomeRoll < 0.7 then Failure
    else PartialSuccess
  }

  /** What every row of the start-up table satisfies. */
  predicate GeneratedMission(m: Mission) {
    && 2002 <= m.launchDate.year <= 2025
    && 1 <= m.launchDate.month <= 12
    && 1 <= m.launchDate.day <= 28
    && m.launchDate.second == 0
    && m.status != Planned
    && 100 <= m.payloadMass <= 10000
    && IsMissionId(m.id, IdPrefixes, 200, 299)
    && m.client in MissionClients
    && 1 <= m.payload.serial <= 100
  }

  /** One row of `initialize_missions_data`, built from its draws. */
  function MissionFromDraw(d: MissionDraw): (m: Mission)
    requires ValidMissionDraw(d)
    ensures m.launchDate == Midnight(d.year, d.month, d.day)
    ensures m.launcher == CatalogOrder[d.launcherIndex]
    ensures m.status == Success <==> d.successRoll > 0.1
    ensures m.payloadMass == d.mass
  {
    Mission(
      MissionId(IdPrefixes[d.prefixIndex], d.idNumber),
      CatalogOrder[d.launcherIndex],
      Midnight(d.year, d.month, d.day),
      MissionClients[d.clientIndex],
      MissionTypes[d.typeIndex],
      Orbits[d.orbitIndex],
      DrawStatus(d.successRoll, d.outcomeRoll),
      Payload(PayloadKinds[d.payloadKindIndex], d.payloadSerial),
      d.mass,
      Sites[d.siteIndex])
  }

  /** A drawn row is a valid date at midnight, with the bounds of the generator's ranges. */
  lemma DrawnMissionIsGenerated(d: MissionDraw)
    requires ValidMissionDraw(d)
    ensures GeneratedMission(MissionFromDraw(d)) && ValidDateTime(MissionFromDraw(d).launchDate)
  {
    MissionIdShape(IdPrefixes[d.prefixIndex], IdPrefixes, d.idNumber, 200, 299);
  }

  /** `initialize_missions_data`: one row per draw, appended in order. */
  method InitializeMissions(draws: seq<MissionDraw>) returns (missions: seq<Mission>)
    requires |draws| == MissionCount
    requires forall i :: 0 <= i < |draws| ==> ValidMissionDraw(draws[i])
    ensures |missions| == MissionCount
    ensures forall i :: 0 <= i < |missions| ==> missions[i] == MissionFromDraw(draws[i])
    ensures forall i :: 0 <= i < |missions| ==> GeneratedMission(missions[i])
  {
    missions := [];
    var i := 0;
    while i < MissionCount
      invariant 0 <= i <= MissionCount
      invariant |missions| == i
      invariant forall j :: 0 <= j < i ==> missions[j] == MissionFromDraw(draws[j])
    {
      missions := missions + [MissionFromDraw(draws[i])];
      i := i + 1;
    }
    forall j | 0 <= j < |missions| ensures GeneratedMission(missions[j]) {
      DrawnMissionIsGenerated(draws[j]);
    }
  }

  /** Identifiers are not unique: two different rows can carry the same one. */
  lemma IdentifiersMayRepeat(d: MissionDraw)
    requires ValidMissionDraw(d)
    ensures var e := d.(mass := if d.mass < 10000 then d.mass + 1 else d.mass - 1);
            MissionFromDraw(e) != MissionFromDraw(d) && MissionFromDraw(e).id == MissionFromDraw(d).id
  {
    var e := d.(mass := if d.mass < 10000 then d.mass + 1 else d.mass - 1);
    assert MissionFromDraw(e).payloadMass != MissionFromDraw(d).payloadMass;
    assert MissionFromDraw(e).id == MissionId(IdPrefixes[d.prefixIndex], d.idNumber);
  }

  // ---------------------------------------------------------------------
  // The planned mission added by a live update.

  const LiveLaunchers: seq<LauncherId> := [Vega, VegaC, Ariane5]
  const LiveClients: seq<string> := ["ESA", "Eutelsat", "SES", "OneWeb"]
  const LiveTypes: seq<MissionType> := [Commercial, Institutional]
  const LiveOrbits: seq<Orbit> := [GEO, LEO, SSO]
  const LivePayloadKinds: seq<PayloadKind> := [TelecomPayload, ObservationPayload]
  const LiveSites: seq<LaunchSite> := [ELA3, ELV]

  datatype LiveDraw = LiveDraw(
    idNumber: int, launcherIndex: int, days: int,
    clientIndex: int, typeIndex: int, orbitIndex: int,
    payloadKindIndex: int, payloadSerial: int,
    mass: int, siteIndex: int)

  predicate ValidLiveDraw(d: LiveDraw) {
    && 230 <= d.idNumber <= 250
    && 0 <= d.launcherIndex < |LiveLaunchers|
    && 1 <= d.days <= 180
    && 0 <= d.clientIndex < |LiveClients|
    && 0 <= d.typeIndex < |LiveTypes|
    && 0 <= d.orbitIndex < |LiveOrbits|
    && 0 <= d.payloadKindIndex < |LivePayloadKinds| && 100 <= d.payloadSerial <= 200
    && 1000 <= d.mass <= 5000
    && 0 <= d.siteIndex < |LiveSites|
  }

  /** What every row added by a live update satisfies, whenever it was added. */
  predicate LiveShaped(m: Mission) {
    && m.status == Planned
    && ValidDateTime(m.launchDate)
    && m.launcher in LiveLaunchers
    && 1000 <= m.payloadMass <= 5000
    && IsMissionId(m.id, ["VV"], 230, 250)
    && m.client in LiveClients
    && m.missionType in LiveTypes
    && m.orbit in LiveOrbits
    && m.payload.kind in LivePayloadKinds && 100 <= m.payload.serial <= 200
    && m.site in LiveSites
  }

  function PlannedMission(now: DateTime, d: LiveDraw): (m: Mission)
    requires ValidDateTime(now) && ValidLiveDraw(d)
    ensures LiveShaped(m)
    ensures Instant(now) < Instant(m.launchDate)
    ensures DayNumber(m.launchDate) == DayNumber(now) + d.days
    ensures m.launchDate.second == now.second && m.launchDate.year >= now.year
  {
    MissionIdShape("VV", ["VV"], d.idNumber, 230, 250);
    Mission(
      MissionId("VV", d.idNumber),
      LiveLaunchers[d.launcherIndex],
      AddDays(now, d.days),
      LiveClients[d.clientIndex],
      LiveTypes[d.typeIndex],
      LiveOrbits[d.orbitIndex],
      Planned,
      Payload(LivePayloadKinds[d.payloadKindIndex], d.payloadSerial),
      d.mass,
      LiveSites[d.siteIndex])
  }

  /** Every row of the mission table, generated or added later. */
  predicate WellFormed(m: Mission) {
    GeneratedMission(m) || LiveShaped(m)
  }

  lemma WellFormedFacts(m: Mission)
    requires WellFormed(m)
    ensures ValidDateTime(m.launchDate)
    ensures 100 <= m.payloadMass <= 10000
    ensures m.client in MissionClients
  {
    if !GeneratedMission(m) {
      assert m.client in LiveClients;
    }
  }
}
