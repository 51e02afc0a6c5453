/** The static launcher catalog (`define_lanceurs`). */
module Launchers {
  import opened Wrappers
  import opened Text

  /** The catalog keys. */
  datatype LauncherId = Ariane5 | Ariane6 | Vega | VegaC | Soyuz

  datatype VehicleStatus = Active | InDevelopment | Paused

  datatype Launcher = Launcher(
    id: LauncherId,
    fullName: string,
    vehicleType: string,
    manufacturer: string,
    leoCapacity: int,
    geoCapacity: Option<int>,
    ssoCapacity: Option<int>,
    firstFlight: int,
    status: VehicleStatus,
    color: string,
    successRate: real,
    totalFlights: int)

  /** The key under which the catalog stores a launcher. */
  function Name(id: LauncherId): string {
    match id
    case Ariane5 => "Ariane 5"
    case Ariane6 => "Ariane 6"
    case Vega => "Vega"
    case VegaC => "Vega C"
    case Soyuz => "Soyuz"
  }

  /** The catalog's key order (dict insertion order). */
  const CatalogOrder: seq<LauncherId> := [Ariane5, Ariane6, Vega, VegaC, Soyuz]

  /** Position of a launcher's key among the keys sorted alphabetically. */
  function NameRank(id: LauncherId): (r: int)
    ensures 0 <= r < 5
  {
    match id
    case Ariane5 => 0
    case Ariane6 => 1
    case Soyuz => 2
    case Vega => 3
    case VegaC => 4
  }

  /** The catalog keys sorted alphabetically. */
  const SortedNames: seq<string> := ["Ariane 5", "Ariane 6", "Soyuz", "Vega", "Vega C"]

  lemma SortedNamesAscend()
    ensures Ascending(SortedNames)
  {
    assert LexLess(SortedNames[0], SortedNames[1]);
    assert LexLess(SortedNames[1], SortedNames[2]);
    assert LexLess(SortedNames[2], SortedNames[3]);
    assert LexLess(SortedNames[3], SortedNames[4]);
  }

  lemma NameRankIsAlphabetical(a: LauncherId, b: LauncherId)
    ensures NameRank(a) < NameRank(b) <==> LexLess(Name(a), Name(b))
    ensures NameRank(a) == NameRank(b) <==> a == b
  {
    SortedNamesAscend();
    assert Name(a) == SortedNames[NameRank(a)] && Name(b) == SortedNames[NameRank(b)];
    AscendingOrder(SortedNames, NameRank(a), NameRank(b));
  }

  function DefineLaunchers(): (c: seq<Launcher>)
    ensures |c| == 5
    ensures forall i :: 0 <= i < 5 ==> c[i].id == CatalogOrder[i]
    ensures forall i :: 0 <= i < 5 ==> 0.0 <= c[i].successRate <= 100.0
    ensures forall i :: 0 <= i < 5 ==> c[i].geoCapacity.Some? != c[i].ssoCapacity.Some?
    ensures forall i :: 0 <= i < 5 ==> 0 < c[i].leoCapacity && c[i].totalFlights >= 0
  {
    [
      Launcher(Ariane5, "Ariane 5", "Lanceur lourd", "ArianeGroup", 21000, Some(10000), None,
               1996, Active, "#0d3b66", 95.2, 112),
      Launcher(Ariane6, "Ariane 6", "Lanceur lourd nouvelle génération", "ArianeGroup", 21500, Some(11500), None,
               2024, InDevelopment, "#1e5a8a", 100.0, 0),
      Launcher(Vega, "Vega", "Lanceur léger", "Avio", 1500, None, Some(1400),
               2012, Active, "#e37222", 90.5, 21),
      Launcher(VegaC, "Vega C", "Lanceur léger amélioré", "Avio", 2200, None, Some(2000),
               2022, Active, "#f4a261", 85.7, 7),
      Launcher(Soyuz, "Soyuz ST", "Lanceur moyen", "Roscosmos", 8200, Some(3250), None,
               2011, Paused, "#6f42c1", 96.3, 27)
    ]
  }

  /** The catalog entry stored under a key. */
  function Lookup(id: LauncherId): (l: Launcher)
    ensures l in DefineLaunchers() && l.id == id
  {
    var c := DefineLaunchers();
    match id
    case Ariane5 => c[0]
    case Ariane6 => c[1]
    case Vega => c[2]
    case VegaC => c[3]
    case Soyuz => c[4]
  }

  /** Every key occurs exactly once, so the catalog is a mapping. */
  lemma CatalogKeysAreDistinct(i: int, j: int)
    requires 0 <= i < j < 5
    ensures DefineLaunchers()[i].id != DefineLaunchers()[j].id
  {
  }

  function FirstFlight(id: LauncherId): int {
    Lookup(id).firstFlight
  }
}
