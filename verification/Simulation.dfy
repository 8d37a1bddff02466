/**
 The sequential route simulation as a function: vehicles front to back, each walking from its
 next stop to the last stop before the terminus over what the vehicles ahead left waiting.
 */
module Simulation {
  import opened Prelude
  import opened Rounding
  import opened Ordering
  import opened Snapshots

  /** Furthest along the route first, ties by vehicle id. */
  predicate AheadOrEqual(v: VehicleSnapshot, w: VehicleSnapshot) {
    || v.currentStopSequence > w.currentStopSequence
    || (v.currentStopSequence == w.currentStopSequence && StringLe(v.vehicleId, w.vehicleId))
  }

  function FrontToBack(vehicles: seq<VehicleSnapshot>): seq<VehicleSnapshot> {
    Sort(AheadOrEqual, vehicles)
  }

  function SequenceOf(stop: StopState): int {
    stop.sequence
  }

  /** Index of the stop with this sequence number; the last one if it repeats. */
  function StopIndex(stops: seq<StopState>, sequence: int): (r: Option<nat>)
    ensures r.Some? ==> r.value < |stops| && stops[r.value].sequence == sequence
  {
    LastIndex(SequenceOf, stops, sequence)
  }

  /** On a route whose numbers increase, the stop with the number, if there is one. */
  lemma StopIndexIs(stops: seq<StopState>, sequence: int)
    requires IncreasingSequences(stops)
    ensures StopIndex(stops, sequence).Some? <==> exists i :: 0 <= i < |stops| && stops[i].sequence == sequence
    ensures forall i: nat :: i < |stops| && stops[i].sequence == sequence ==> StopIndex(stops, sequence) == Some(i)
  {
    assert forall i :: 0 <= i < |stops| ==> SequenceOf(stops[i]) == stops[i].sequence;
  }

  // One vehicle at one stop

  /** What one vehicle does at one stop; load is the load on departure. */
  datatype Leg = Leg(alighted: int, boarded: int, load: int)

  /** How many of the passengers on board leave at a stop. */
  type AlightingRule = int -> int

  function ByFraction(fraction: real): AlightingRule {
    (load: int) => Min(Share(load, fraction), load)
  }

  function Boarding(waiting: int, capacity: int, load: int): int {
    Min(waiting, Max(0, capacity - load))
  }

  function LegAt(waiting: int, capacity: int, load: int, rule: AlightingRule): Leg {
    var alight := rule(load);
    var board := Boarding(waiting, capacity, load - alight);
    Leg(alight, board, load - alight + board)
  }

  /** The legs of one vehicle from stop i up to, but not including, the terminus. */
  function Legs(waiting: seq<int>, capacity: int, load: int, rule: AlightingRule, i: nat): seq<Leg>
    decreases |waiting| - i
  {
    if i + 1 >= |waiting| then []
    else
      var leg := LegAt(waiting[i], capacity, load, rule);
      [leg] + Legs(waiting, capacity, leg.load, rule, i + 1)
  }

  lemma {:induction false} LegsLength(waiting: seq<int>, capacity: int, load: int, rule: AlightingRule, i: nat)
    requires i < |waiting|
    ensures |Legs(waiting, capacity, load, rule, i)| == |waiting| - 1 - i
    decreases |waiting| - i
  {
    if i + 1 < |waiting| {
      LegsLength(waiting, capacity, LegAt(waiting[i], capacity, load, rule).load, rule, i + 1);
    }
  }

  /** One step along a vehicle's legs, seen from the whole ride. */
  lemma LegsStep(waiting: seq<int>, capacity: int, load: int, rule: AlightingRule, start: nat, i: nat, ride: seq<Leg>)
    requires start <= i && i + 1 < |waiting| && i - start <= |ride|
    requires ride[i - start..] == Legs(waiting, capacity, load, rule, i)
    ensures i - start < |ride| && ride[i - start] == LegAt(waiting[i], capacity, load, rule)
    ensures ride[i + 1 - start..] == Legs(waiting, capacity, ride[i - start].load, rule, i + 1)
  {
    assert |ride[i - start..]| > 0;
    assert ride[i - start] == ride[i - start..][0];
    assert ride[i + 1 - start..] == ride[i - start..][1..];
  }

  /** Who boarded at stop k, when the legs begin at stop start. */
  function BoardedOn(legs: seq<Leg>, start: nat, k: nat): int {
    if start <= k < start + |legs| then legs[k - start].boarded else 0
  }

  function AfterLegs(waiting: seq<int>, start: nat, legs: seq<Leg>): (r: seq<int>)
    ensures |r| == |waiting|
  {
    seq(|waiting|, k requires 0 <= k < |waiting| => waiting[k] - BoardedOn(legs, start, k))
  }

  // One vehicle along the route

  function PredictionAt(stop: StopState, leg: Leg): StopPrediction {
    StopPrediction(stop.stopId, stop.sequence, leg.load, leg.boarded, leg.alighted,
                   stop.peopleWaiting, stop.peopleWaiting.Some?)
  }

  function PredictionsOf(stops: seq<StopState>, start: nat, legs: seq<Leg>): (r: seq<StopPrediction>)
    requires start + |legs| <= |stops|
    ensures |r| == |legs|
  {
    seq(|legs|, k requires 0 <= k < |legs| => PredictionAt(stops[start + k], legs[k]))
  }

  function PeakLoad(preds: seq<StopPrediction>): int
    requires preds != []
  {
    if |preds| == 1 then preds[0].predictedPassengers
    else Max(preds[0].predictedPassengers, PeakLoad(preds[1..]))
  }

  function WithData(preds: seq<StopPrediction>): nat {
    if preds == [] then 0
    else WithData(preds[..|preds| - 1]) + if preds[|preds| - 1].hasData then 1 else 0
  }

  /** The state of a walk after n of its legs. */
  ghost predicate Walked(stops: seq<StopState>, before: seq<int>, start: nat, ride: seq<Leg>, n: nat,
                         remaining: seq<int>, preds: seq<StopPrediction>, stopsWithData: nat)
    requires start + |ride| <= |stops| && n <= |ride|
  {
    && remaining == AfterLegs(before, start, ride[..n])
    && preds == PredictionsOf(stops, start, ride[..n])
    && stopsWithData == WithData(preds)
  }

  lemma WalkedNothing(stops: seq<StopState>, before: seq<int>, start: nat, ride: seq<Leg>)
    requires start + |ride| <= |stops|
    ensures Walked(stops, before, start, ride, 0, before, [], 0)
  {
    assert AfterLegs(before, start, ride[..0]) == before;
  }

  lemma WalkedStep(stops: seq<StopState>, before: seq<int>, start: nat, ride: seq<Leg>, i: nat,
                   remaining: seq<int>, preds: seq<StopPrediction>, stopsWithData: nat)
    requires start + |ride| <= |stops| == |before| && start <= i < start + |ride|
    requires Walked(stops, before, start, ride, i - start, remaining, preds, stopsWithData)
    ensures |remaining| == |before| && remaining[i] == before[i]
    ensures var leg := ride[i - start];
            Walked(stops, before, start, ride, i + 1 - start, remaining[i := before[i] - leg.boarded],
                   preds + [PredictionAt(stops[i], leg)],
                   if stops[i].peopleWaiting.Some? then stopsWithData + 1 else stopsWithData)
  {
    var n := i - start;
    var pred := PredictionAt(stops[i], ride[n]);
    assert preds + [pred] == PredictionsOf(stops, start, ride[..n + 1]);
    assert (preds + [pred])[..n] == preds;
    assert remaining[i := before[i] - ride[n].boarded] == AfterLegs(before, start, ride[..n + 1]);
  }

  /** A vehicle about to visit stop i: what lies ahead of it, and what its walk has done so far. */
  ghost predicate OnTheWay(stops: seq<StopState>, before: seq<int>, start: nat, ride: seq<Leg>, v: VehicleSnapshot,
                           rule: AlightingRule, i: nat, load: int, remaining: seq<int>, preds: seq<StopPrediction>,
                           stopsWithData: nat)
  {
    && start <= i <= start + |ride| <= |stops| == |before|
    && ride[i - start..] == Legs(before, v.capacity, load, rule, i)
    && Walked(stops, before, start, ride, i - start, remaining, preds, stopsWithData)
  }

  lemma VisitNext(stops: seq<StopState>, before: seq<int>, start: nat, ride: seq<Leg>, v: VehicleSnapshot,
                  rule: AlightingRule, i: nat, load: int, remaining: seq<int>, preds: seq<StopPrediction>,
                  stopsWithData: nat)
    requires OnTheWay(stops, before, start, ride, v, rule, i, load, remaining, preds, stopsWithData)
    requires i + 1 < |stops|
    ensures |remaining| == |stops|
    ensures var leg := LegAt(remaining[i], v.capacity, load, rule);
            OnTheWay(stops, before, start, ride, v, rule, i + 1, leg.load, remaining[i := remaining[i] - leg.boarded],
                     preds + [PredictionAt(stops[i], leg)],
                     if stops[i].peopleWaiting.Some? then stopsWithData + 1 else stopsWithData)
  {
    LegsStep(before, v.capacity, load, rule, start, i, ride);
    WalkedStep(stops, before, start, ride, i, remaining, preds, stopsWithData);
  }

  function Summary(v: VehicleSnapshot, preds: seq<StopPrediction>): VehiclePrediction
    requires preds != [] && v.capacity > 0
  {
    var peak := PeakLoad(preds);
    VehiclePrediction(v.vehicleId, v.routeId, v.capacity, preds, peak,
                      peak as real / v.capacity as real, WithData(preds) as real / |preds| as real)
  }

  /** Where the vehicle joins the simulation; None if it is skipped. */
  function EntryStop(stops: seq<StopState>, v: VehicleSnapshot): (r: Option<nat>)
    ensures r.Some? ==> r.value < |stops| && v.capacity > 0
  {
    if v.capacity <= 0 then None else StopIndex(stops, v.currentStopSequence)
  }

  function LegsOf(stops: seq<StopState>, waiting: seq<int>, v: VehicleSnapshot, rule: AlightingRule): seq<Leg> {
    match EntryStop(stops, v)
    case None => []
    case Some(start) => Legs(waiting, v.capacity, v.passengerCount, rule, start)
  }

  function WaitingAfter(stops: seq<StopState>, waiting: seq<int>, v: VehicleSnapshot, rule: AlightingRule): (r: seq<int>)
    ensures |r| == |waiting|
  {
    AfterLegs(waiting, EntryStop(stops, v).GetOr(0), LegsOf(stops, waiting, v, rule))
  }

  /** The vehicle's entry in the result: a list of one, or none if it is skipped or already at the terminus. */
  function PredictVehicle(stops: seq<StopState>, waiting: seq<int>, v: VehicleSnapshot, rule: AlightingRule)
    : (r: seq<VehiclePrediction>)
    requires |waiting| == |stops|
  {
    match EntryStop(stops, v)
    case None => []
    case Some(start) =>
      LegsLength(waiting, v.capacity, v.passengerCount, rule, start);
      var preds := PredictionsOf(stops, start, LegsOf(stops, waiting, v, rule));
      if preds == [] then [] else [Summary(v, preds)]
  }

  // All vehicles

  /** Who is still waiting after all these vehicles, in this order. */
  function LeftBy(stops: seq<StopState>, waiting: seq<int>, vehicles: seq<VehicleSnapshot>, rule: AlightingRule)
    : (r: seq<int>)
    ensures |r| == |waiting|
    decreases |vehicles|
  {
    if vehicles == [] then waiting
    else LeftBy(stops, WaitingAfter(stops, waiting, vehicles[0], rule), vehicles[1..], rule)
  }

  function PredictAll(stops: seq<StopState>, waiting: seq<int>, vehicles: seq<VehicleSnapshot>, rule: AlightingRule)
    : seq<VehiclePrediction>
    requires |waiting| == |stops|
    decreases |vehicles|
  {
    if vehicles == [] then []
    else PredictVehicle(stops, waiting, vehicles[0], rule)
         + PredictAll(stops, WaitingAfter(stops, waiting, vehicles[0], rule), vehicles[1..], rule)
  }

  /** Serving two groups one after the other. */
  lemma {:induction false} LeftByTwoGroups(stops: seq<StopState>, waiting: seq<int>, ahead: seq<VehicleSnapshot>,
                                           behind: seq<VehicleSnapshot>, rule: AlightingRule)
    ensures LeftBy(stops, waiting, ahead + behind, rule)
            == LeftBy(stops, LeftBy(stops, waiting, ahead, rule), behind, rule)
    decreases |ahead|
  {
    if ahead == [] {
      assert ahead + behind == behind;
    } else {
      LeftByTwoGroups(stops, WaitingAfter(stops, waiting, ahead[0], rule), ahead[1..], behind, rule);
      DropFirstOfAppend(ahead, behind);
    }
  }

  lemma {:induction false} PredictTwoGroups(stops: seq<StopState>, waiting: seq<int>, ahead: seq<VehicleSnapshot>,
                                            behind: seq<VehicleSnapshot>, rule: AlightingRule)
    requires |waiting| == |stops|
    ensures PredictAll(stops, waiting, ahead + behind, rule)
            == PredictAll(stops, waiting, ahead, rule)
               + PredictAll(stops, LeftBy(stops, waiting, ahead, rule), behind, rule)
    decreases |ahead|
  {
    if ahead == [] {
      assert ahead + behind == behind;
    } else {
      var after := WaitingAfter(stops, waiting, ahead[0], rule);
      PredictTwoGroups(stops, after, ahead[1..], behind, rule);
      AppendAssociative(PredictVehicle(stops, waiting, ahead[0], rule), PredictAll(stops, after, ahead[1..], rule),
                        PredictAll(stops, LeftBy(stops, after, ahead[1..], rule), behind, rule));
      DropFirstOfAppend(ahead, behind);
    }
  }

  lemma ServeOneMore(stops: seq<StopState>, waiting: seq<int>, vehicles: seq<VehicleSnapshot>, n: nat, rule: AlightingRule)
    requires |waiting| == |stops| && n < |vehicles|
    ensures var before := LeftBy(stops, waiting, vehicles[..n], rule);
            && LeftBy(stops, waiting, vehicles[..n + 1], rule) == WaitingAfter(stops, before, vehicles[n], rule)
            && PredictAll(stops, waiting, vehicles[..n + 1], rule)
               == PredictAll(stops, waiting, vehicles[..n], rule) + PredictVehicle(stops, before, vehicles[n], rule)
  {
    assert vehicles[..n + 1] == vehicles[..n] + [vehicles[n]];
    LeftByTwoGroups(stops, waiting, vehicles[..n], [vehicles[n]], rule);
    PredictTwoGroups(stops, waiting, vehicles[..n], [vehicles[n]], rule);
  }

  function InitialWaiting(stops: seq<StopState>): (r: seq<int>)
    ensures |r| == |stops|
  {
    seq(|stops|, i requires 0 <= i < |stops| => Waiting(stops[i]))
  }

  /** The stranded dictionary after the first n stops; a repeated stop id overwrites. */
  function StrandedMap(stops: seq<StopState>, waiting: seq<int>, n: nat): map<string, int>
    requires n <= |stops| == |waiting|
  {
    if n == 0 then map[]
    else
      var m := StrandedMap(stops, waiting, n - 1);
      if waiting[n - 1] > 0 then m[stops[n - 1].stopId := waiting[n - 1]] else m
  }

  function LeftOver(snapshot: RouteSnapshot, fraction: real): (r: seq<int>)
    ensures |r| == |snapshot.stops|
  {
    LeftBy(snapshot.stops, InitialWaiting(snapshot.stops), FrontToBack(snapshot.vehicles), ByFraction(fraction))
  }

  /** The whole of predict_route. A route of at most one stop yields an empty result. */
  function Predict(snapshot: RouteSnapshot, fraction: real): RoutePredictionResult {
    var stops := snapshot.stops;
    if |stops| <= 1 then RoutePredictionResult(snapshot.routeId, snapshot.directionId, [], map[])
    else
      RoutePredictionResult(
        snapshot.routeId, snapshot.directionId,
        PredictAll(stops, InitialWaiting(stops), FrontToBack(snapshot.vehicles), ByFraction(fraction)),
        StrandedMap(stops, LeftOver(snapshot, fraction), |stops|))
  }

  /** How many passengers the result leaves behind at a stop. */
  function StrandedAt(r: RoutePredictionResult, stopId: string): int {
    if stopId in r.strandedAtStops then r.strandedAtStops[stopId] else 0
  }

  lemma AheadOrEqualTotal()
    ensures TotalPreorder(AheadOrEqual)
  {
    forall v, w ensures AheadOrEqual(v, w) || AheadOrEqual(w, v) {
      StringLeTotal(v.vehicleId, w.vehicleId);
    }
    forall u, v, w | AheadOrEqual(u, v) && AheadOrEqual(v, w) ensures AheadOrEqual(u, w) {
      if u.currentStopSequence == v.currentStopSequence == w.currentStopSequence {
        StringLeTransitive(u.vehicleId, v.vehicleId, w.vehicleId);
      }
    }
  }
}
