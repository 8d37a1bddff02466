/**
 The predictions table: written one flat row per vehicle and stop, and grouped back into
 vehicles, stops and stranded counts by the API.
 */
module PredictionTable {
  import opened Prelude
  import opened Rounding
  import opened Ordering
  import opened Snapshots

  datatype Row = Row(
    time: int, vehicleId: string, routeId: string, directionId: int, stopId: string, stopSequence: int,
    predictedPassengers: int, vehicleCapacity: int, predictedOccupancyPct: real, waitingAtStop: Option<int>,
    boarded: int, alighted: int, hasData: bool, confidence: real)

  // Writing

  function RowOf(now: int, directionId: int, vp: VehiclePrediction, sp: StopPrediction): Row {
    var occupancy :=
      if vp.vehicleCapacity > 0 then sp.predictedPassengers as real / vp.vehicleCapacity as real else 0.0;
    Row(now, vp.vehicleId, vp.routeId, directionId, sp.stopId, sp.stopSequence, sp.predictedPassengers,
        vp.vehicleCapacity, Round4(occupancy), sp.peopleWaitingAtStop, sp.boarded, sp.alighted, sp.hasData,
        Round4(vp.confidence))
  }

  /** The rows of the first n stops of one vehicle. */
  function VehicleRows(now: int, directionId: int, vp: VehiclePrediction, n: nat): (rows: seq<Row>)
    requires n <= |vp.stops|
    ensures |rows| == n
    ensures forall k :: 0 <= k < n ==> rows[k] == RowOf(now, directionId, vp, vp.stops[k])
  {
    if n == 0 then []
    else VehicleRows(now, directionId, vp, n - 1) + [RowOf(now, directionId, vp, vp.stops[n - 1])]
  }

  /** The rows of a list of vehicles, in order. */
  function RowsOf(now: int, directionId: int, preds: seq<VehiclePrediction>): seq<Row> {
    if preds == [] then []
    else RowsOf(now, directionId, preds[..|preds| - 1])
         + VehicleRows(now, directionId, preds[|preds| - 1], |preds[|preds| - 1].stops|)
  }

  /** What a write leaves in the table: all of the result's rows, or none if a statement of the transaction raises. */
  function Stored(result: RoutePredictionResult, now: int, failing: Option<nat>): seq<Row> {
    var rows := RowsOf(now, result.directionId, result.vehiclePredictions);
    var statements := |rows| + if rows == [] then 1 else 2;
    if failing.None? || failing.value >= statements then rows else []
  }

  function NotifiedBy(result: RoutePredictionResult, now: int, failing: Option<nat>): seq<string> {
    if Stored(result, now, failing) == [] then [] else ["predictions"]
  }

  /** How a write ends, by the statement that raises. */
  lemma StoredCases(result: RoutePredictionResult, now: int, failing: Option<nat>, rows: seq<Row>)
    requires rows == RowsOf(now, result.directionId, result.vehiclePredictions)
    ensures failing.Some? && failing.value < |rows| ==> Stored(result, now, failing) == []
    ensures failing == Some(|rows|) ==> Stored(result, now, failing) == []
    ensures rows != [] && failing == Some(|rows| + 1) ==> Stored(result, now, failing) == []
    ensures failing.None? || failing.value > |rows| + 1 || (rows == [] && failing.value > 0)
            ==> Stored(result, now, failing) == rows
  {
  }

  class PredictionStore {
    var predictions: seq<Row>
    var notifications: seq<string>

    constructor ()
      ensures predictions == [] && notifications == []
    {
      predictions, notifications := [], [];
    }

    /** Inserts the rows of one vehicle, numbering its statements from first; stops at a statement that raises. */
    method InsertVehicle(now: int, directionId: int, vp: VehiclePrediction, first: nat, failing: Option<nat>)
      returns (rows: seq<Row>, raised: bool)
      requires failing.Some? ==> failing.value >= first
      ensures raised <==> failing.Some? && failing.value < first + |vp.stops|
      ensures !raised ==> rows == VehicleRows(now, directionId, vp, |vp.stops|)
    {
      rows := [];
      for k := 0 to |vp.stops|
        invariant rows == VehicleRows(now, directionId, vp, k)
        invariant failing.Some? ==> failing.value >= first + k
      {
        if failing == Some(first + k) {
          return rows, true;
        }
        rows := rows + [RowOf(now, directionId, vp, vp.stops[k])];
      }
      raised := false;
    }

    /**
     Inserts every row in one transaction. The statement numbered failing, if any, raises: inserts come
     first, then the notification, then the commit. A transaction that raises leaves the table alone.
     */
    method WritePredictions(result: RoutePredictionResult, now: int, failing: Option<nat>)
      modifies this
      ensures predictions == old(predictions) + Stored(result, now, failing)
      ensures notifications == old(notifications) + NotifiedBy(result, now, failing)
    {
      var preds, directionId := result.vehiclePredictions, result.directionId;
      StoredCases(result, now, failing, RowsOf(now, directionId, preds));
      var inserted: seq<Row> := [];
      for v := 0 to |preds|
        invariant predictions == old(predictions) && notifications == old(notifications)
        invariant inserted == RowsOf(now, directionId, preds[..v])
        invariant failing.Some? ==> failing.value >= |inserted|
      {
        OneMoreVehicle(now, directionId, preds, v);
        MoreRowsLater(now, directionId, preds, v + 1);
        var rows, raised := InsertVehicle(now, directionId, preds[v], |inserted|, failing);
        if raised {
          return;
        }
        inserted := inserted + rows;
      }
      FullSlices(preds);
      var executed := |inserted|;
      if inserted != [] {
        if failing == Some(executed) {
          return;
        }
        executed := executed + 1;
      }
      if failing == Some(executed) {
        return;
      }
      predictions := predictions + inserted;
      notifications := notifications + if inserted != [] then ["predictions"] else [];
    }
  }

  lemma OneMoreVehicle(now: int, directionId: int, preds: seq<VehiclePrediction>, v: nat)
    requires v < |preds|
    ensures RowsOf(now, directionId, preds[..v + 1])
            == RowsOf(now, directionId, preds[..v]) + VehicleRows(now, directionId, preds[v], |preds[v].stops|)
  {
    assert preds[..v + 1][..v] == preds[..v];
  }

  lemma {:induction false} MoreRowsLater(now: int, directionId: int, preds: seq<VehiclePrediction>, v: nat)
    requires v <= |preds|
    ensures |RowsOf(now, directionId, preds[..v])| <= |RowsOf(now, directionId, preds)|
    decreases |preds| - v
  {
    if v == |preds| {
      FullSlices(preds);
    } else {
      OneMoreVehicle(now, directionId, preds, v);
      MoreRowsLater(now, directionId, preds, v + 1);
    }
  }

  // Selecting

  /** A database collation: any total order on text that tells different texts apart. */
  ghost predicate IsCollation(textLe: (string, string) -> bool) {
    TotalPreorder(textLe) && forall a, b :: textLe(a, b) && textLe(b, a) ==> a == b
  }

  /** ORDER BY vehicle_id, stop_sequence. */
  function ByVehicleThenStop(textLe: (string, string) -> bool): (Row, Row) -> bool {
    (r: Row, s: Row) =>
      if r.vehicleId == s.vehicleId then r.stopSequence <= s.stopSequence else textLe(r.vehicleId, s.vehicleId)
  }

  function LatestTime(table: seq<Row>, routeId: string, directionId: int): Option<int> {
    if table == [] then None
    else
      var earlier := LatestTime(table[..|table| - 1], routeId, directionId);
      var last := table[|table| - 1];
      if last.routeId == routeId && last.directionId == directionId && (earlier.None? || last.time > earlier.value)
      then Some(last.time) else earlier
  }

  function SelectRows(table: seq<Row>, routeId: string, directionId: int, time: int): seq<Row> {
    if table == [] then []
    else
      var last := table[|table| - 1];
      SelectRows(table[..|table| - 1], routeId, directionId, time)
      + if last.routeId == routeId && last.directionId == directionId && last.time == time then [last] else []
  }

  /** What the database may return: the selected rows in any order that the ORDER BY allows. */
  ghost predicate IsOrderedSelection(rows: seq<Row>, table: seq<Row>, routeId: string, directionId: int, time: int,
                                     textLe: (string, string) -> bool) {
    && multiset(rows) == multiset(SelectRows(table, routeId, directionId, time))
    && SortedBy(ByVehicleThenStop(textLe), rows)
  }

  // Grouping

  datatype ApiStop = ApiStop(
    stopId: string, stopSequence: int, predictedPassengers: int, boarded: int, alighted: int, hasData: bool)

  datatype ApiVehicle = ApiVehicle(
    vehicleId: string, vehicleCapacity: int, confidence: real, peakOccupancyPct: real, stops: seq<ApiStop>)

  datatype ApiStopInfo = ApiStopInfo(stopId: string, stopSequence: int, peopleWaiting: Option<int>)

  datatype ApiResult = ApiResult(
    vehiclePredictions: seq<ApiVehicle>, stops: seq<ApiStopInfo>, strandedAtStops: map<string, int>)

  type Key = Row -> string

  function VehicleKey(r: Row): string {
    r.vehicleId
  }

  function StopKey(r: Row): string {
    r.stopId
  }

  /** The rows that share a key, in order. */
  function Group(rows: seq<Row>, key: Key, id: string): seq<Row> {
    if rows == [] then []
    else
      var last := rows[|rows| - 1];
      Group(rows[..|rows| - 1], key, id) + if key(last) == id then [last] else []
  }

  /** The keys that occur, in order of first appearance. */
  function FirstSeen(rows: seq<Row>, key: Key): seq<string> {
    if rows == [] then []
    else
      var seen := FirstSeen(rows[..|rows| - 1], key);
      var id := key(rows[|rows| - 1]);
      if id in seen then seen else seen + [id]
  }

  function PeakOf(group: seq<Row>): real {
    if group == [] then 0.0
    else
      var before, occupancy := PeakOf(group[..|group| - 1]), group[|group| - 1].predictedOccupancyPct;
      if occupancy > before then occupancy else before
  }

  function StopOf(r: Row): ApiStop {
    ApiStop(r.stopId, r.stopSequence, r.predictedPassengers, r.boarded, r.alighted, r.hasData)
  }

  function StopsOf(group: seq<Row>): (stops: seq<ApiStop>)
    ensures |stops| == |group|
    ensures forall k :: 0 <= k < |group| ==> stops[k] == StopOf(group[k])
  {
    if group == [] then [] else StopsOf(group[..|group| - 1]) + [StopOf(group[|group| - 1])]
  }

  // What is reported about a group; only groups with rows in them are ever reported.

  function VehicleFrom(group: seq<Row>): ApiVehicle {
    if group == [] then ApiVehicle("", 0, 0.0, 0.0, [])
    else ApiVehicle(group[0].vehicleId, group[0].vehicleCapacity, group[0].confidence, PeakOf(group), StopsOf(group))
  }

  function InfoFrom(group: seq<Row>): ApiStopInfo {
    if group == [] then ApiStopInfo("", 0, None)
    else ApiStopInfo(group[0].stopId, group[0].stopSequence, group[0].waitingAtStop)
  }

  function WaitingFrom(group: seq<Row>): int {
    if group == [] then 0 else group[0].waitingAtStop.GetOr(0)
  }

  function BoardedFrom(group: seq<Row>): int {
    if group == [] then 0 else BoardedFrom(group[..|group| - 1]) + group[|group| - 1].boarded
  }

  /** One value per key, in order of first appearance. */
  function Reported<V>(rows: seq<Row>, key: Key, report: seq<Row> -> V, ids: seq<string>): seq<V> {
    if ids == [] then []
    else Reported(rows, key, report, ids[..|ids| - 1]) + [report(Group(rows, key, ids[|ids| - 1]))]
  }

  function BySequence(a: ApiStopInfo, b: ApiStopInfo): bool {
    a.stopSequence <= b.stopSequence
  }

  /** Waiting when first seen, less everyone who boarded, where anyone is left. */
  function StrandedIn(rows: seq<Row>): map<string, int> {
    map id | id in FirstSeen(rows, StopKey)
             && WaitingFrom(Group(rows, StopKey, id)) - BoardedFrom(Group(rows, StopKey, id)) > 0
    :: WaitingFrom(Group(rows, StopKey, id)) - BoardedFrom(Group(rows, StopKey, id))
  }

  /** The response, group by group. */
  function Regroup(rows: seq<Row>): ApiResult {
    ApiResult(Reported(rows, VehicleKey, VehicleFrom, FirstSeen(rows, VehicleKey)),
              Sort(BySequence, Reported(rows, StopKey, InfoFrom, FirstSeen(rows, StopKey))),
              StrandedIn(rows))
  }
}
