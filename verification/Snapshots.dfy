/** The frozen input and output records of the prediction engine. */
module Snapshots {
  import opened Prelude

  /** peopleWaiting is None where no edge device reports. */
  datatype StopState = StopState(stopId: string, sequence: int, peopleWaiting: Option<int>)

  datatype VehicleSnapshot = VehicleSnapshot(
    vehicleId: string, routeId: string, capacity: int, currentStopSequence: int, passengerCount: int)

  datatype RouteSnapshot = RouteSnapshot(
    routeId: string, directionId: int, stops: seq<StopState>, vehicles: seq<VehicleSnapshot>)

  datatype StopPrediction = StopPrediction(
    stopId: string, stopSequence: int, predictedPassengers: int, boarded: int, alighted: int,
    peopleWaitingAtStop: Option<int>, hasData: bool)

  datatype VehiclePrediction = VehiclePrediction(
    vehicleId: string, routeId: string, vehicleCapacity: int, stops: seq<StopPrediction>,
    peakLoad: int, peakOccupancyPct: real, confidence: real)

  datatype RoutePredictionResult = RoutePredictionResult(
    routeId: string, directionId: int, vehiclePredictions: seq<VehiclePrediction>,
    strandedAtStops: map<string, int>)

  /** An unknown crowd counts as nobody. */
  function Waiting(stop: StopState): (count: int)
    ensures match stop.peopleWaiting case None => count == 0 case Some(n) => count == n
  {
    stop.peopleWaiting.GetOr(0)
  }

  ghost predicate DistinctStopIds(stops: seq<StopState>) {
    forall i, j :: 0 <= i < j < |stops| ==> stops[i].stopId != stops[j].stopId
  }

  ghost predicate IncreasingSequences(stops: seq<StopState>) {
    forall i, j :: 0 <= i < j < |stops| ==> stops[i].sequence < stops[j].sequence
  }

  ghost predicate DistinctVehicleIds(vehicles: seq<VehicleSnapshot>) {
    forall i, j :: 0 <= i < j < |vehicles| ==> vehicles[i].vehicleId != vehicles[j].vehicleId
  }

  ghost predicate NonNegativeWaiting(stops: seq<StopState>) {
    forall i :: 0 <= i < |stops| ==> Waiting(stops[i]) >= 0
  }
}
