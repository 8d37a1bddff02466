/** The prediction engine as it runs: nested loops over one shared array of waiting passengers. */
module Engine {
  import opened Prelude
  import opened Snapshots
  import opened Simulation

  class PredictionEngine {
    const configuredFraction: real

    constructor (configuredFraction: real := 0.05)
      ensures this.configuredFraction == configuredFraction
    {
      this.configuredFraction := configuredFraction;
    }

    function FractionFor(override: Option<real>): (fraction: real)
      ensures match override case None => fraction == configuredFraction case Some(f) => fraction == f
    {
      override.GetOr(configuredFraction)
    }

    /** Indexes the stops by sequence number and copies out the waiting counts. */
    method IndexStops(stops: seq<StopState>) returns (seqToIdx: map<int, nat>, remaining: array<int>, hasData: seq<bool>)
      ensures fresh(remaining) && remaining[..] == InitialWaiting(stops)
      ensures forall q :: q in seqToIdx <==> StopIndex(stops, q).Some?
      ensures forall q :: q in seqToIdx ==> seqToIdx[q] == StopIndex(stops, q).value
      ensures |hasData| == |stops| && forall i :: 0 <= i < |stops| ==> hasData[i] == stops[i].peopleWaiting.Some?
    {
      seqToIdx, hasData := map[], [];
      remaining := new int[|stops|];
      for idx := 0 to |stops|
        invariant forall i :: 0 <= i < idx ==> remaining[i] == Waiting(stops[i])
        invariant forall q :: q in seqToIdx <==> StopIndex(stops[..idx], q).Some?
        invariant forall q :: q in seqToIdx ==> seqToIdx[q] == StopIndex(stops[..idx], q).value
        invariant |hasData| == idx && forall i :: 0 <= i < idx ==> hasData[i] == stops[i].peopleWaiting.Some?
      {
        seqToIdx := seqToIdx[stops[idx].sequence := idx];
        remaining[idx] := Waiting(stops[idx]);
        hasData := hasData + [stops[idx].peopleWaiting.Some?];
        assert stops[..idx + 1][..idx] == stops[..idx];
      }
      assert stops[..|stops|] == stops;
    }

    /** One vehicle at one stop: alight, then board what fits, then record the departure. */
    method VisitStop(stop: StopState, hasData: bool, remaining: array<int>, i: nat, capacity: int, load: int, rule: AlightingRule)
      returns (departing: int, pred: StopPrediction)
      requires i < remaining.Length && hasData == stop.peopleWaiting.Some?
      modifies remaining
      ensures var leg := LegAt(old(remaining[i]), capacity, load, rule);
              && departing == leg.load
              && pred == PredictionAt(stop, leg)
              && remaining[..] == old(remaining[..])[i := old(remaining[i]) - leg.boarded]
    {
      var alight := rule(load);
      departing := load - alight;
      var board := Min(remaining[i], Max(0, capacity - departing));
      departing := departing + board;
      remaining[i] := remaining[i] - board;
      pred := StopPrediction(stop.stopId, stop.sequence, departing, board, alight, stop.peopleWaiting, hasData);
    }

    /** The body of the walk: visit a stop and record the visit. */
    method RecordStop(stops: seq<StopState>, hasData: bool, remaining: array<int>, vehicle: VehicleSnapshot, i: nat,
                      load: int, stopPreds: seq<StopPrediction>, stopsWithData: nat, rule: AlightingRule,
                      ghost before: seq<int>, ghost start: nat, ghost ride: seq<Leg>)
      returns (departing: int, stopPreds': seq<StopPrediction>, stopsWithData': nat)
      requires i + 1 < |stops| == remaining.Length && hasData == stops[i].peopleWaiting.Some?
      requires OnTheWay(stops, before, start, ride, vehicle, rule, i, load, remaining[..], stopPreds, stopsWithData)
      modifies remaining
      ensures OnTheWay(stops, before, start, ride, vehicle, rule, i + 1, departing, remaining[..], stopPreds', stopsWithData')
    {
      VisitNext(stops, before, start, ride, vehicle, rule, i, load, remaining[..], stopPreds, stopsWithData);
      var pred;
      departing, pred := VisitStop(stops[i], hasData, remaining, i, vehicle.capacity, load, rule);
      stopPreds' := stopPreds + [pred];
      stopsWithData' := stopsWithData;
      if hasData {
        stopsWithData' := stopsWithData + 1;
      }
    }

    /** Walks one vehicle from its entry stop to the stop before the terminus. */
    method Walk(stops: seq<StopState>, hasData: seq<bool>, remaining: array<int>, vehicle: VehicleSnapshot,
                start: nat, rule: AlightingRule)
      returns (stopPreds: seq<StopPrediction>, stopsWithData: nat, ghost ride: seq<Leg>)
      requires |hasData| == |stops| == remaining.Length && start < |stops|
      requires forall i :: 0 <= i < |stops| ==> hasData[i] == stops[i].peopleWaiting.Some?
      modifies remaining
      ensures ride == Legs(old(remaining[..]), vehicle.capacity, vehicle.passengerCount, rule, start)
      ensures start + |ride| <= |stops|
      ensures Walked(stops, old(remaining[..]), start, ride, |ride|, remaining[..], stopPreds, stopsWithData)
    {
      ghost var before := remaining[..];
      ride := Legs(before, vehicle.capacity, vehicle.passengerCount, rule, start);
      LegsLength(before, vehicle.capacity, vehicle.passengerCount, rule, start);
      WalkedNothing(stops, before, start, ride);
      FullSlices(ride);
      var load := vehicle.passengerCount;
      stopPreds, stopsWithData := [], 0;
      var endIdx := |stops| - 1;
      for i := start to endIdx
        invariant OnTheWay(stops, before, start, ride, vehicle, rule, i, load, remaining[..], stopPreds, stopsWithData)
      {
        load, stopPreds, stopsWithData :=
          RecordStop(stops, hasData[i], remaining, vehicle, i, load, stopPreds, stopsWithData, rule, before, start, ride);
      }
    }

    /** Step 3 for one vehicle: skip it, or walk it and summarise the walk. */
    method ServeVehicle(stops: seq<StopState>, seqToIdx: map<int, nat>, hasData: seq<bool>, remaining: array<int>,
                        vehicle: VehicleSnapshot, rule: AlightingRule)
      returns (entry: seq<VehiclePrediction>)
      requires |hasData| == |stops| == remaining.Length
      requires forall i :: 0 <= i < |stops| ==> hasData[i] == stops[i].peopleWaiting.Some?
      requires forall q :: q in seqToIdx <==> StopIndex(stops, q).Some?
      requires forall q :: q in seqToIdx ==> seqToIdx[q] == StopIndex(stops, q).value
      modifies remaining
      ensures remaining[..] == WaitingAfter(stops, old(remaining[..]), vehicle, rule)
      ensures entry == PredictVehicle(stops, old(remaining[..]), vehicle, rule)
    {
      if vehicle.currentStopSequence !in seqToIdx || vehicle.capacity <= 0 {
        assert remaining[..] == WaitingAfter(stops, remaining[..], vehicle, rule);
        return [];
      }
      var start := seqToIdx[vehicle.currentStopSequence];
      ghost var ride;
      var stopPreds, stopsWithData;
      stopPreds, stopsWithData, ride := Walk(stops, hasData, remaining, vehicle, start, rule);
      FullSlices(ride);
      if stopPreds == [] {
        return [];
      }
      var peakLoad := PeakLoad(stopPreds);
      entry := [VehiclePrediction(vehicle.vehicleId, vehicle.routeId, vehicle.capacity, stopPreds, peakLoad,
                                  peakLoad as real / vehicle.capacity as real,
                                  stopsWithData as real / |stopPreds| as real)];
    }

    /** Whoever is still waiting at a stop is stranded there. */
    method CollectStranded(stops: seq<StopState>, remaining: array<int>) returns (stranded: map<string, int>)
      requires |stops| == remaining.Length
      ensures stranded == StrandedMap(stops, remaining[..], |stops|)
    {
      stranded := map[];
      for i := 0 to |stops|
        invariant stranded == StrandedMap(stops, remaining[..], i)
      {
        var count := remaining[i];
        if count > 0 {
          stranded := stranded[stops[i].stopId := count];
        }
      }
    }

    /** Every vehicle in turn over the same array. */
    method ServeAll(stops: seq<StopState>, seqToIdx: map<int, nat>, hasData: seq<bool>, remaining: array<int>,
                    sortedVehicles: seq<VehicleSnapshot>, rule: AlightingRule)
      returns (predictions: seq<VehiclePrediction>)
      requires |hasData| == |stops| == remaining.Length
      requires forall i :: 0 <= i < |stops| ==> hasData[i] == stops[i].peopleWaiting.Some?
      requires forall q :: q in seqToIdx <==> StopIndex(stops, q).Some?
      requires forall q :: q in seqToIdx ==> seqToIdx[q] == StopIndex(stops, q).value
      modifies remaining
      ensures remaining[..] == LeftBy(stops, old(remaining[..]), sortedVehicles, rule)
      ensures predictions == PredictAll(stops, old(remaining[..]), sortedVehicles, rule)
    {
      ghost var before := remaining[..];
      predictions := [];
      for n := 0 to |sortedVehicles|
        invariant remaining[..] == LeftBy(stops, before, sortedVehicles[..n], rule)
        invariant predictions == PredictAll(stops, before, sortedVehicles[..n], rule)
      {
        ServeOneMore(stops, before, sortedVehicles, n, rule);
        var entry := ServeVehicle(stops, seqToIdx, hasData, remaining, sortedVehicles[n], rule);
        predictions := predictions + entry;
      }
      FullSlices(sortedVehicles);
    }

    /** The prediction for one route, as specified by Predict. */
    method PredictRoute(snapshot: RouteSnapshot, alightingFraction: Option<real>) returns (r: RoutePredictionResult)
      ensures r == Predict(snapshot, FractionFor(alightingFraction))
    {
      var af := FractionFor(alightingFraction);
      var stops := snapshot.stops;
      if |stops| <= 1 {
        return RoutePredictionResult(snapshot.routeId, snapshot.directionId, [], map[]);
      }
      var seqToIdx, remaining, hasData := IndexStops(stops);
      var sortedVehicles := FrontToBack(snapshot.vehicles);
      var predictions := ServeAll(stops, seqToIdx, hasData, remaining, sortedVehicles, ByFraction(af));
      var stranded := CollectStranded(stops, remaining);
      return RoutePredictionResult(snapshot.routeId, snapshot.directionId, predictions, stranded);
    }
  }
}
