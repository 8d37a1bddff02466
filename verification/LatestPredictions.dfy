/** The overview of all routes, which repeats the aggregation of prediction rows with code of its own. */
module LatestPredictions {
  import opened Prelude
  import opened PredictionTable
  import opened Queries
  import opened ReadBackStops

  datatype LatestStop = LatestStop(
    stopId: string, stopSequence: int, predictedPassengers: int, boarded: int, alighted: int,
    waitingAtStop: Option<int>, hasData: bool)

  datatype LatestVehicle = LatestVehicle(
    vehicleId: string, routeId: string, vehicleCapacity: int, confidence: real, peakOccupancyPct: real,
    stops: seq<LatestStop>)

  datatype LatestRoute = LatestRoute(
    routeId: string, directionId: int, time: int, vehiclePredictions: seq<LatestVehicle>,
    strandedAtStops: map<string, int>)

  /** A route and direction with the time of its newest rows, and those rows as the second query returns them. */
  datatype RouteRows = RouteRows(routeId: string, directionId: int, time: int, rows: seq<Row>)

  function LatestStopOf(r: Row): LatestStop {
    LatestStop(r.stopId, r.stopSequence, r.predictedPassengers, r.boarded, r.alighted, r.waitingAtStop, r.hasData)
  }

  function LatestStopsOf(group: seq<Row>): (stops: seq<LatestStop>)
    ensures |stops| == |group|
    ensures forall k :: 0 <= k < |group| ==> stops[k] == LatestStopOf(group[k])
  {
    if group == [] then [] else LatestStopsOf(group[..|group| - 1]) + [LatestStopOf(group[|group| - 1])]
  }

  function LatestFrom(routeId: string): seq<Row> -> LatestVehicle {
    (group: seq<Row>) =>
      if group == [] then LatestVehicle("", routeId, 0, 0.0, 0.0, [])
      else LatestVehicle(group[0].vehicleId, routeId, group[0].vehicleCapacity, group[0].confidence,
                         PeakOf(group), LatestStopsOf(group))
  }

  function RouteOf(q: RouteRows): LatestRoute {
    LatestRoute(q.routeId, q.directionId, q.time,
                Reported(q.rows, VehicleKey, LatestFrom(q.routeId), FirstSeen(q.rows, VehicleKey)),
                StrandedIn(q.rows))
  }

  lemma LatestOfOneMore(routeId: string, group: seq<Row>, r: Row)
    ensures var first := if group == [] then r else group[0];
            var peak := if r.predictedOccupancyPct > PeakOf(group) then r.predictedOccupancyPct else PeakOf(group);
            LatestFrom(routeId)(group + [r])
            == LatestVehicle(first.vehicleId, routeId, first.vehicleCapacity, first.confidence, peak,
                             LatestStopsOf(group) + [LatestStopOf(r)])
  {
    assert (group + [r])[..|group|] == group;
  }

  class OverviewQueries {

    static method TallyVehicle(ghost before: seq<Row>, routeId: string, r: Row, order: seq<string>,
                               vehicles: map<string, LatestVehicle>)
      returns (order': seq<string>, vehicles': map<string, LatestVehicle>)
      requires order == FirstSeen(before, VehicleKey) && Tallied(before, VehicleKey, LatestFrom(routeId), vehicles)
      ensures order' == FirstSeen(before + [r], VehicleKey)
      ensures Tallied(before + [r], VehicleKey, LatestFrom(routeId), vehicles')
    {
      order' := order;
      var vp;
      if r.vehicleId !in vehicles {
        order' := order + [r.vehicleId];
        vp := LatestVehicle(r.vehicleId, routeId, r.vehicleCapacity, r.confidence, 0.0, []);
      } else {
        vp := vehicles[r.vehicleId];
      }
      if r.predictedOccupancyPct > vp.peakOccupancyPct {
        vp := vp.(peakOccupancyPct := r.predictedOccupancyPct);
      }
      vp := vp.(stops := vp.stops + [LatestStopOf(r)]);
      vehicles' := vehicles[r.vehicleId := vp];
      SeenOneMore(before, r, VehicleKey);
      LatestOfOneMore(routeId, Group(before, VehicleKey, r.vehicleId), r);
      TallyOneMore(before, r, VehicleKey, LatestFrom(routeId), vehicles, vp);
    }

    /** The inner loop, over the rows of one route. */
    static method Aggregate(q: RouteRows) returns (route: LatestRoute)
      ensures route == RouteOf(q)
    {
      var rows := q.rows;
      var order: seq<string>, vehicles: map<string, LatestVehicle> := [], map[];
      var stopWaiting: map<string, int>, stopBoarded: map<string, int> := map[], map[];
      for n := 0 to |rows|
        invariant order == FirstSeen(rows[..n], VehicleKey)
        invariant Tallied(rows[..n], VehicleKey, LatestFrom(q.routeId), vehicles)
        invariant Tallied(rows[..n], StopKey, WaitingFrom, stopWaiting)
        invariant Tallied(rows[..n], StopKey, BoardedFrom, stopBoarded)
      {
        TakeOneMore(rows, n);
        order, vehicles := TallyVehicle(rows[..n], q.routeId, rows[n], order, vehicles);
        stopWaiting, stopBoarded := PredictionQueries.TallyCounts(rows[..n], rows[n], stopWaiting, stopBoarded);
      }
      FullSlices(rows);
      var listed := PredictionQueries.ListValues(rows, VehicleKey, LatestFrom(q.routeId), order, vehicles);
      var stranded := PredictionQueries.Subtract(rows, stopWaiting, stopBoarded);
      route := LatestRoute(q.routeId, q.directionId, q.time, listed, stranded);
    }

    static method QueryPredictionsLatest(routeDirs: seq<RouteRows>) returns (routes: seq<LatestRoute>)
      ensures |routes| == |routeDirs|
      ensures forall k :: 0 <= k < |routes| ==> routes[k] == RouteOf(routeDirs[k])
    {
      routes := [];
      for n := 0 to |routeDirs|
        invariant |routes| == n && forall k :: 0 <= k < n ==> routes[k] == RouteOf(routeDirs[k])
      {
        var route := Aggregate(routeDirs[n]);
        routes := routes + [route];
      }
    }
  }

  // Both endpoints say the same

  function WithoutWaiting(stop: LatestStop): ApiStop {
    ApiStop(stop.stopId, stop.stopSequence, stop.predictedPassengers, stop.boarded, stop.alighted, stop.hasData)
  }

  /** The overview's vehicle as the route endpoint shows it. */
  function AsShown(vp: LatestVehicle): ApiVehicle {
    ApiVehicle(vp.vehicleId, vp.vehicleCapacity, vp.confidence, vp.peakOccupancyPct,
               seq(|vp.stops|, k requires 0 <= k < |vp.stops| => WithoutWaiting(vp.stops[k])))
  }

  lemma SameVehicle(routeId: string, group: seq<Row>)
    ensures AsShown(LatestFrom(routeId)(group)) == VehicleFrom(group)
  {
    assert AsShown(LatestFrom(routeId)(group)).stops == VehicleFrom(group).stops;
  }

  lemma SameAt(q: RouteRows, k: nat)
    requires k < |RouteOf(q).vehiclePredictions| && k < |Regroup(q.rows).vehiclePredictions|
    ensures RouteOf(q).vehiclePredictions[k].routeId == q.routeId
         && AsShown(RouteOf(q).vehiclePredictions[k]) == Regroup(q.rows).vehiclePredictions[k]
  {
    var ids := FirstSeen(q.rows, VehicleKey);
    ReportedAt(q.rows, VehicleKey, LatestFrom(q.routeId), ids);
    ReportedAt(q.rows, VehicleKey, VehicleFrom, ids);
    SameVehicle(q.routeId, Group(q.rows, VehicleKey, ids[k]));
  }

  /** On the same rows the overview and the route endpoint list the same vehicles and the same stranded counts. */
  lemma EndpointsAgree(q: RouteRows)
    ensures var overview, shown := RouteOf(q), Regroup(q.rows);
            && overview.strandedAtStops == shown.strandedAtStops
            && |overview.vehiclePredictions| == |shown.vehiclePredictions|
            && forall k :: 0 <= k < |shown.vehiclePredictions| ==>
                 && overview.vehiclePredictions[k].routeId == q.routeId
                 && AsShown(overview.vehiclePredictions[k]) == shown.vehiclePredictions[k]
  {
    var ids := FirstSeen(q.rows, VehicleKey);
    ReportedAt(q.rows, VehicleKey, LatestFrom(q.routeId), ids);
    ReportedAt(q.rows, VehicleKey, VehicleFrom, ids);
    forall k | 0 <= k < |ids|
      ensures RouteOf(q).vehiclePredictions[k].routeId == q.routeId
           && AsShown(RouteOf(q).vehiclePredictions[k]) == Regroup(q.rows).vehiclePredictions[k]
    {
      SameAt(q, k);
    }
  }
}
