/** The client market table (`initialize_clients_data`). */
module Clients {

  /** A fixed market segment: name, market share in percent, colour, region. */
  datatype ClientInfo = ClientInfo(name: string, share: int, color: string, region: string)

  datatype ClientSegment = ClientSegment(
    name: string,
    share: int,
    color: string,
    region: string,
    missionsTotal: int,
    satellitesLaunched: int)

  /** The two `randint` results drawn for a segment. */
  datatype ClientDraw = ClientDraw(missions: int, satellites: int)

  predicate ValidClientDraw(d: ClientDraw) {
    5 <= d.missions <= 50 && 10 <= d.satellites <= 200
  }

  const SegmentCount: nat := 6

  function ClientTable(): (t: seq<ClientInfo>)
    ensures |t| == SegmentCount
  {
    [
      ClientInfo("Commercial", 65, "#0d3b66", "International"),
      ClientInfo("ESA", 15, "#1e5a8a", "Europe"),
      ClientInfo("NASA", 8, "#e37222", "USA"),
      ClientInfo("CNES", 5, "#f4a261", "France"),
      ClientInfo("Autres Institutionnels", 4, "#6f42c1", "International"),
      ClientInfo("Militaires", 3, "#dc3545", "International")
    ]
  }

  function ShareSum(t: seq<ClientInfo>): int {
    if t == [] then 0 else ShareSum(t[..|t| - 1]) + t[|t| - 1].share
  }

  function SegmentShareSum(rows: seq<ClientSegment>): int {
    if rows == [] then 0 else SegmentShareSum(rows[..|rows| - 1]) + rows[|rows| - 1].share
  }

  /** The market shares of the fixed table add up to exactly 100. */
  lemma TableSharesSumTo100()
    ensures ShareSum(ClientTable()) == 100
  {
    var t := ClientTable();
    assert t[..1][..0] == [] && ShareSum(t[..1]) == 65;
    assert t[..2][..1] == t[..1] && ShareSum(t[..2]) == 80;
    assert t[..3][..2] == t[..2] && ShareSum(t[..3]) == 88;
    assert t[..4][..3] == t[..3] && ShareSum(t[..4]) == 93;
    assert t[..5][..4] == t[..4] && ShareSum(t[..5]) == 97;
    assert t[..5] == t[..|t| - 1];
  }

  function Segment(info: ClientInfo, d: ClientDraw): ClientSegment {
    ClientSegment(info.name, info.share, info.color, info.region, d.missions, d.satellites)
  }

  lemma ShareSumStep(t: seq<ClientInfo>, i: int)
    requires 0 <= i < |t|
    ensures ShareSum(t[..i + 1]) == ShareSum(t[..i]) + t[i].share
  {
    assert t[..i + 1][..i] == t[..i];
  }

  lemma SegmentShareSumSnoc(rows: seq<ClientSegment>, r: ClientSegment)
    ensures SegmentShareSum(rows + [r]) == SegmentShareSum(rows) + r.share
  {
    assert (rows + [r])[..|rows|] == rows;
  }

  /** `initialize_clients_data`: one row per fixed segment, in table order. */
  method InitializeClients(draws: seq<ClientDraw>) returns (rows: seq<ClientSegment>)
    requires |draws| == SegmentCount
    requires forall i :: 0 <= i < |draws| ==> ValidClientDraw(draws[i])
    ensures |rows| == SegmentCount
    ensures forall i :: 0 <= i < |rows| ==> rows[i] == Segment(ClientTable()[i], draws[i])
    ensures SegmentShareSum(rows) == 100
    ensures forall i :: 0 <= i < |rows| ==>
              5 <= rows[i].missionsTotal <= 50 && 10 <= rows[i].satellitesLaunched <= 200
  {
    var table := ClientTable();
    rows := [];
    var i := 0;
    while i < |table|
      invariant 0 <= i <= |table|
      invariant |rows| == i
      invariant forall j :: 0 <= j < i ==> rows[j] == Segment(table[j], draws[j])
      invariant SegmentShareSum(rows) == ShareSum(table[..i])
    {
      ShareSumStep(table, i);
      SegmentShareSumSnoc(rows, Segment(table[i], draws[i]));
      rows := rows + [Segment(table[i], draws[i])];
      i := i + 1;
    }
    assert table[..i] == table;
    TableSharesSumTo100();
  }

  /** Every row of the client table is well formed. */
  predicate ClientsOk(rows: seq<ClientSegment>) {
    && |rows| == SegmentCount
    && SegmentShareSum(rows) == 100
    && forall i :: 0 <= i < |rows| ==>
         5 <= rows[i].missionsTotal <= 50 && 10 <= rows[i].satellitesLaunched <= 200
  }
}
