/**
 What a prediction is, without saying how it is computed: each condition speaks of the snapshot and of
 the result only. Exactly one result meets them all, and it is the one that is computed.
 */
module Reference {
  import opened Prelude
  import opened Rounding
  import opened Ordering
  import opened Snapshots
  import opened Simulation
  import opened Stranded
  import opened Laws
  import Relief

  // The conditions

  /** Every vehicle comes before those it is ahead of, and before those level with it that have larger ids. */
  ghost predicate InServiceOrder(vehicles: seq<VehicleSnapshot>) {
    forall i, j :: 0 <= i < j < |vehicles| ==>
      || vehicles[i].currentStopSequence > vehicles[j].currentStopSequence
      || (vehicles[i].currentStopSequence == vehicles[j].currentStopSequence
          && StringLe(vehicles[i].vehicleId, vehicles[j].vehicleId))
  }

  /** The fraction of the load, to the nearest passenger and ties to even, but never more than the load. */
  ghost predicate AlightedFits(alighted: int, arriving: int, fraction: real) {
    NearestUpTo(arriving as real * fraction, arriving, alighted)
  }

  ghost predicate NearestUpTo(x: real, most: int, k: int) {
    exists n :: IsNearestEven(x, n) && k == if n <= most then n else most
  }

  /** At a stop a fraction of the arriving load leaves, and then everyone boards who still waits, as far as there is room. */
  ghost predicate StopFits(sp: StopPrediction, stop: StopState, waiting: int, arriving: int, capacity: int, fraction: real) {
    && sp.stopId == stop.stopId && sp.stopSequence == stop.sequence
    && sp.peopleWaitingAtStop == stop.peopleWaiting && sp.hasData == stop.peopleWaiting.Some?
    && AlightedFits(sp.alighted, arriving, fraction)
    && sp.boarded == Min(waiting, Max(0, capacity - (arriving - sp.alighted)))
    && sp.predictedPassengers == arriving - sp.alighted + sp.boarded
  }

  /** One record per stop from stop i to the last before the terminus, each starting from the load before it. */
  ghost predicate RideFits(preds: seq<StopPrediction>, stops: seq<StopState>, waiting: seq<int>, arriving: int,
                           capacity: int, fraction: real, i: nat)
    requires |waiting| == |stops|
    decreases |stops| - i
  {
    if i + 1 >= |stops| then preds == []
    else
      && preds != [] && StopFits(preds[0], stops[i], waiting[i], arriving, capacity, fraction)
      && RideFits(preds[1..], stops, waiting, preds[0].predictedPassengers, capacity, fraction, i + 1)
  }

  /** Who still waits at each stop when some vehicles have been served. */
  function StillWaiting(stops: seq<StopState>, served: seq<VehiclePrediction>): (waiting: seq<int>)
    ensures |waiting| == |stops|
    ensures forall i :: 0 <= i < |stops| ==> waiting[i] == Waiting(stops[i]) - BoardedAt(served, stops[i].stopId)
  {
    seq(|stops|, i requires 0 <= i < |stops| => Waiting(stops[i]) - BoardedAt(served, stops[i].stopId))
  }

  function StopsWithData(preds: seq<StopPrediction>): set<nat> {
    set k: nat | k < |preds| && preds[k].hasData
  }

  ghost predicate EntryFits(vp: VehiclePrediction, v: VehicleSnapshot, stops: seq<StopState>,
                            served: seq<VehiclePrediction>, fraction: real)
    requires Joins(stops, v)
  {
    && vp.vehicleId == v.vehicleId && vp.routeId == v.routeId && vp.vehicleCapacity == v.capacity
    && RideFits(vp.stops, stops, StillWaiting(stops, served), v.passengerCount, v.capacity, fraction,
                StopIndex(stops, v.currentStopSequence).value)
    && IsPeak(vp.stops, vp.peakLoad)
    && vp.peakOccupancyPct == vp.peakLoad as real / v.capacity as real
    && vp.stops != [] && vp.confidence == |StopsWithData(vp.stops)| as real / |vp.stops| as real
  }

  /** The entries of these vehicles, in order, after some have been served; those that do not join have none. */
  ghost predicate EntriesFit(preds: seq<VehiclePrediction>, vehicles: seq<VehicleSnapshot>, stops: seq<StopState>,
                             served: seq<VehiclePrediction>, fraction: real)
    decreases |vehicles|
  {
    if vehicles == [] then preds == []
    else if !Joins(stops, vehicles[0]) then EntriesFit(preds, vehicles[1..], stops, served, fraction)
    else
      && preds != [] && EntryFits(preds[0], vehicles[0], stops, served, fraction)
      && EntriesFit(preds[1..], vehicles[1..], stops, served + [preds[0]], fraction)
  }

  /** Exactly the stops where someone never boards are listed, with their number. */
  ghost predicate StrandedFits(stranded: map<string, int>, stops: seq<StopState>, preds: seq<VehiclePrediction>) {
    && (forall i :: 0 <= i < |stops| ==>
          Lookup(stranded, stops[i].stopId) == Waiting(stops[i]) - BoardedAt(preds, stops[i].stopId))
    && forall id :: id in stranded ==> stranded[id] > 0 && KnownStop(id, stops)
  }

  /** A route of at most one stop has no stretch to ride, and its result lists nobody at all. */
  ghost predicate IsPrediction(r: RoutePredictionResult, snapshot: RouteSnapshot, sorted: seq<VehicleSnapshot>, fraction: real) {
    && r.routeId == snapshot.routeId && r.directionId == snapshot.directionId
    && EntriesFit(r.vehiclePredictions, sorted, snapshot.stops, [], fraction)
    && if |snapshot.stops| <= 1 then r.strandedAtStops == map[]
       else StrandedFits(r.strandedAtStops, snapshot.stops, r.vehiclePredictions)
  }

  // They determine the result

  lemma ServiceOrderIsFrontToBack(vehicles: seq<VehicleSnapshot>, sorted: seq<VehicleSnapshot>)
    requires DistinctVehicleIds(vehicles)
    ensures multiset(sorted) == multiset(vehicles) && InServiceOrder(sorted) <==> sorted == FrontToBack(vehicles)
  {
    AheadOrEqualTotal();
    SortPermutes(AheadOrEqual, vehicles);
    SortSorted(AheadOrEqual, vehicles);
    DistinctIdsSeparate(vehicles);
    if multiset(sorted) == multiset(vehicles) && InServiceOrder(sorted) {
      SameMembers(vehicles, FrontToBack(vehicles));
      SortedPermutationUnique(AheadOrEqual, FrontToBack(vehicles), sorted);
    }
  }

  lemma AlightingFits(arriving: int, fraction: real, alighted: int)
    ensures AlightedFits(alighted, arriving, fraction) <==> alighted == ByFraction(fraction)(arriving)
  {
    var x := arriving as real * fraction;
    NearestUpToIs(x, arriving, alighted);
    ShareIsRounded(arriving, fraction, x);
  }

  lemma NearestUpToIs(x: real, most: int, k: int)
    ensures NearestUpTo(x, most, k) <==> k == Min(RoundHalfEven(x), most)
  {
    NearestEvenUnique(x, RoundHalfEven(x));
    forall n | IsNearestEven(x, n) ensures n == RoundHalfEven(x) {
      NearestEvenUnique(x, n);
    }
  }

  lemma StopFitsIff(sp: StopPrediction, stop: StopState, waiting: int, arriving: int, capacity: int, fraction: real)
    ensures StopFits(sp, stop, waiting, arriving, capacity, fraction)
            <==> sp == PredictionAt(stop, LegAt(waiting, capacity, arriving, ByFraction(fraction)))
  {
    AlightingFits(arriving, fraction, sp.alighted);
  }

  lemma {:induction false} RideFitsIff(preds: seq<StopPrediction>, stops: seq<StopState>, waiting: seq<int>, arriving: int,
                                       capacity: int, fraction: real, i: nat)
    requires |waiting| == |stops| && i < |stops|
    ensures var legs := Legs(waiting, capacity, arriving, ByFraction(fraction), i);
            && i + |legs| <= |stops|
            && (RideFits(preds, stops, waiting, arriving, capacity, fraction, i) <==> preds == PredictionsOf(stops, i, legs))
    decreases |stops| - i
  {
    var legs := Legs(waiting, capacity, arriving, ByFraction(fraction), i);
    LegsLength(waiting, capacity, arriving, ByFraction(fraction), i);
    if i + 1 < |stops| {
      PredictionsOfRest(stops, i, legs);
      var expected := PredictionsOf(stops, i, legs);
      FirstAndRest(expected, expected[0], expected[1..]);
      if preds != [] {
        StopFitsIff(preds[0], stops[i], waiting[i], arriving, capacity, fraction);
        RideFitsIff(preds[1..], stops, waiting, legs[0].load, capacity, fraction, i + 1);
        FirstAndRest(preds, expected[0], expected[1..]);
      }
    }
  }

  lemma {:induction false} CountStopsWithData(preds: seq<StopPrediction>)
    ensures |StopsWithData(preds)| == WithData(preds)
  {
    if preds == [] {
      assert StopsWithData(preds) == {};
    } else {
      var n := |preds| - 1;
      CountStopsWithData(preds[..n]);
      assert StopsWithData(preds) == StopsWithData(preds[..n]) + if preds[n].hasData then {n} else {};
    }
  }

  lemma PeakUnique(preds: seq<StopPrediction>, peak: int)
    requires preds != []
    ensures IsPeak(preds, peak) <==> peak == PeakLoad(preds)
  {
    PeakLoadIsPeak(preds);
  }

  lemma EntryFitsIff(vp: VehiclePrediction, v: VehicleSnapshot, stops: seq<StopState>, served: seq<VehiclePrediction>, fraction: real)
    requires Joins(stops, v)
    ensures EntryFits(vp, v, stops, served, fraction)
            <==> PredictVehicle(stops, StillWaiting(stops, served), v, ByFraction(fraction)) == [vp]
  {
    var waiting, start := StillWaiting(stops, served), StopIndex(stops, v.currentStopSequence).value;
    RideFitsIff(vp.stops, stops, waiting, v.passengerCount, v.capacity, fraction, start);
    LegsLength(waiting, v.capacity, v.passengerCount, ByFraction(fraction), start);
    CountStopsWithData(vp.stops);
    if vp.stops != [] {
      PeakUnique(vp.stops, vp.peakLoad);
    }
  }

  /** A vehicle that does not join has no entry and takes nobody. */
  lemma OutsiderTakesNobody(stops: seq<StopState>, waiting: seq<int>, v: VehicleSnapshot, rule: AlightingRule)
    requires |waiting| == |stops| && !Joins(stops, v)
    ensures PredictVehicle(stops, waiting, v, rule) == [] && WaitingAfter(stops, waiting, v, rule) == waiting
  {
    if EntryStop(stops, v).Some? {
      LegsLength(waiting, v.capacity, v.passengerCount, rule, EntryStop(stops, v).value);
    }
    assert LegsOf(stops, waiting, v, rule) == [];
  }

  lemma JoinerHasEntry(stops: seq<StopState>, waiting: seq<int>, v: VehicleSnapshot, rule: AlightingRule)
    requires |waiting| == |stops| && Joins(stops, v)
    ensures |PredictVehicle(stops, waiting, v, rule)| == 1
  {
    LegsLength(waiting, v.capacity, v.passengerCount, rule, EntryStop(stops, v).value);
  }

  /** Serving one more vehicle, seen from the result and from the simulation. */
  lemma StillWaitingAfter(stops: seq<StopState>, served: seq<VehiclePrediction>, v: VehicleSnapshot, vp: VehiclePrediction,
                          rule: AlightingRule)
    requires DistinctStopIds(stops) && PredictVehicle(stops, StillWaiting(stops, served), v, rule) == [vp]
    ensures StillWaiting(stops, served + [vp]) == WaitingAfter(stops, StillWaiting(stops, served), v, rule)
  {
    forall i | 0 <= i < |stops|
      ensures StillWaiting(stops, served + [vp])[i] == WaitingAfter(stops, StillWaiting(stops, served), v, rule)[i]
    {
      VehicleConserves(stops, StillWaiting(stops, served), v, rule, i);
      BoardedAtAppend(served, [vp], stops[i].stopId);
    }
  }

  lemma OneMember<T>(s: seq<T>)
    requires |s| == 1
    ensures s == [s[0]]
  {
  }

  lemma FirstAndRest<T>(s: seq<T>, first: T, rest: seq<T>)
    ensures s == [first] + rest <==> s != [] && s[0] == first && s[1..] == rest
  {
    if s != [] {
      assert s == [s[0]] + s[1..];
    }
  }

  /** One vehicle more, when the rest of the entries is known to fit what follows. */
  lemma JoinerEntriesFit(preds: seq<VehiclePrediction>, vehicles: seq<VehicleSnapshot>, stops: seq<StopState>,
                         served: seq<VehiclePrediction>, fraction: real, entry: VehiclePrediction, later: seq<VehiclePrediction>)
    requires vehicles != [] && Joins(stops, vehicles[0])
    requires preds != [] ==> (EntryFits(preds[0], vehicles[0], stops, served, fraction) <==> preds[0] == entry)
    requires preds != [] && preds[0] == entry
             ==> (EntriesFit(preds[1..], vehicles[1..], stops, served + [entry], fraction) <==> preds[1..] == later)
    ensures EntriesFit(preds, vehicles, stops, served, fraction) <==> preds == [entry] + later
  {
    FirstAndRest(preds, entry, later);
  }

  lemma {:induction false} EntriesFitIff(preds: seq<VehiclePrediction>, vehicles: seq<VehicleSnapshot>, stops: seq<StopState>,
                                         served: seq<VehiclePrediction>, fraction: real)
    requires DistinctStopIds(stops)
    ensures EntriesFit(preds, vehicles, stops, served, fraction)
            <==> preds == PredictAll(stops, StillWaiting(stops, served), vehicles, ByFraction(fraction))
    decreases |vehicles|
  {
    if vehicles != [] {
      var v, rule, waiting := vehicles[0], ByFraction(fraction), StillWaiting(stops, served);
      if !Joins(stops, v) {
        OutsiderTakesNobody(stops, waiting, v, rule);
        EntriesFitIff(preds, vehicles[1..], stops, served, fraction);
      } else {
        JoinerHasEntry(stops, waiting, v, rule);
        var entry := PredictVehicle(stops, waiting, v, rule)[0];
        OneMember(PredictVehicle(stops, waiting, v, rule));
        if preds != [] {
          EntryFitsIff(preds[0], v, stops, served, fraction);
          StillWaitingAfter(stops, served, v, entry, rule);
          EntriesFitIff(preds[1..], vehicles[1..], stops, served + [entry], fraction);
        }
        JoinerEntriesFit(preds, vehicles, stops, served, fraction, entry,
                         PredictAll(stops, WaitingAfter(stops, waiting, v, rule), vehicles[1..], rule));
      }
    }
  }

  lemma StrandedUnique(a: map<string, int>, b: map<string, int>, stops: seq<StopState>, preds: seq<VehiclePrediction>)
    requires StrandedFits(a, stops, preds) && StrandedFits(b, stops, preds)
    ensures a == b
  {
    forall id ensures Lookup(a, id) == Lookup(b, id) {
      if id in a || id in b {
        var i :| 0 <= i < |stops| && stops[i].stopId == id;
      }
    }
    forall id ensures (id in a <==> id in b) && (id in a && id in b ==> a[id] == b[id]) {
      assert Lookup(a, id) == Lookup(b, id);
    }
  }

  lemma ComputedStrandedFits(snapshot: RouteSnapshot, fraction: real)
    requires DistinctStopIds(snapshot.stops) && NonNegativeWaiting(snapshot.stops) && |snapshot.stops| > 1
    ensures StrandedFits(Predict(snapshot, fraction).strandedAtStops, snapshot.stops, Predict(snapshot, fraction).vehiclePredictions)
  {
    var r := Predict(snapshot, fraction);
    PassengersConserved(snapshot, fraction);
    forall i | 0 <= i < |snapshot.stops|
      ensures Lookup(r.strandedAtStops, snapshot.stops[i].stopId)
              == Waiting(snapshot.stops[i]) - BoardedAt(r.vehiclePredictions, snapshot.stops[i].stopId)
    {
      assert BalancedAt(snapshot, r, i);
    }
    StrandedMapEntries(snapshot.stops, LeftOver(snapshot, fraction), |snapshot.stops|);
    StrandedArePositive(snapshot.stops, LeftOver(snapshot, fraction), |snapshot.stops|);
  }

  lemma {:induction false} NobodyJoins(preds: seq<VehiclePrediction>, vehicles: seq<VehicleSnapshot>, stops: seq<StopState>,
                                       served: seq<VehiclePrediction>, fraction: real)
    requires |stops| <= 1
    ensures EntriesFit(preds, vehicles, stops, served, fraction) <==> preds == []
    decreases |vehicles|
  {
    if vehicles != [] {
      NobodyJoins(preds, vehicles[1..], stops, served, fraction);
    }
  }

  /**
   A result is the computed prediction if and only if it meets the conditions for the vehicles in service
   order: the conditions admit one result, and the code finds it. The fraction and the loads may be anything.
   */
  lemma PredictionIsTheOnlyOne(snapshot: RouteSnapshot, sorted: seq<VehicleSnapshot>, fraction: real, r: RoutePredictionResult)
    requires DistinctStopIds(snapshot.stops) && NonNegativeWaiting(snapshot.stops)
    requires DistinctVehicleIds(snapshot.vehicles)
    requires multiset(sorted) == multiset(snapshot.vehicles) && InServiceOrder(sorted)
    ensures IsPrediction(r, snapshot, sorted, fraction) <==> r == Predict(snapshot, fraction)
  {
    if |snapshot.stops| <= 1 {
      NobodyJoins(r.vehiclePredictions, sorted, snapshot.stops, [], fraction);
    } else {
      ServiceOrderIsFrontToBack(snapshot.vehicles, sorted);
      SameMembers(sorted, snapshot.vehicles);
      assert StillWaiting(snapshot.stops, []) == InitialWaiting(snapshot.stops);
      EntriesFitIff(r.vehiclePredictions, sorted, snapshot.stops, [], fraction);
      ComputedStrandedFits(snapshot, fraction);
      if IsPrediction(r, snapshot, sorted, fraction) {
        StrandedUnique(r.strandedAtStops, Predict(snapshot, fraction).strandedAtStops, snapshot.stops, r.vehiclePredictions);
      }
    }
  }

  // Full or empty

  /** The vehicle has no room when it leaves this stop, if it calls there. */
  ghost predicate LeavesFull(vp: VehiclePrediction, stopId: string) {
    forall k :: 0 <= k < |vp.stops| && vp.stops[k].stopId == stopId ==> vp.stops[k].predictedPassengers >= vp.vehicleCapacity
  }

  ghost predicate AllLeaveFull(preds: seq<VehiclePrediction>, stopId: string) {
    forall vp :: vp in preds ==> LeavesFull(vp, stopId)
  }

  lemma {:induction false} LegFull(waiting: seq<int>, capacity: int, load: int, rule: AlightingRule, start: nat, k: nat)
    requires k < |Legs(waiting, capacity, load, rule, start)| && start + k < |waiting|
    requires waiting[start + k] > Legs(waiting, capacity, load, rule, start)[k].boarded
    ensures Legs(waiting, capacity, load, rule, start)[k].load >= capacity
    decreases k
  {
    if k > 0 {
      LegFull(waiting, capacity, LegAt(waiting[start], capacity, load, rule).load, rule, start + 1, k - 1);
    }
  }

  lemma RecordOfStop(stops: seq<StopState>, start: nat, legs: seq<Leg>, k: nat, i: nat)
    requires DistinctStopIds(stops) && start + |legs| <= |stops| && k < |legs| && i < |stops|
    requires PredictionsOf(stops, start, legs)[k].stopId == stops[i].stopId
    ensures start + k == i
  {
    assert stops[start + k].stopId == stops[i].stopId;
  }

  /** Where a ride takes fewer than wait, it leaves full. */
  lemma RideLeavesFull(stops: seq<StopState>, waiting: seq<int>, v: VehicleSnapshot, rule: AlightingRule, start: nat, i: nat)
    requires |waiting| == |stops| && DistinctStopIds(stops) && i < |stops| && start < |stops|
    requires var legs := Legs(waiting, v.capacity, v.passengerCount, rule, start);
             waiting[i] - BoardedOn(legs, start, i) > 0
    ensures var legs := Legs(waiting, v.capacity, v.passengerCount, rule, start);
            && start + |legs| <= |stops|
            && var preds := PredictionsOf(stops, start, legs);
               forall k :: 0 <= k < |preds| && preds[k].stopId == stops[i].stopId ==> preds[k].predictedPassengers >= v.capacity
  {
    var legs := Legs(waiting, v.capacity, v.passengerCount, rule, start);
    LegsLength(waiting, v.capacity, v.passengerCount, rule, start);
    var preds := PredictionsOf(stops, start, legs);
    forall k | 0 <= k < |preds| && preds[k].stopId == stops[i].stopId ensures preds[k].predictedPassengers >= v.capacity {
      RecordOfStop(stops, start, legs, k, i);
      LegFull(waiting, v.capacity, v.passengerCount, rule, start, k);
    }
  }

  lemma VehicleLeavesFull(stops: seq<StopState>, waiting: seq<int>, v: VehicleSnapshot, rule: AlightingRule, i: nat)
    requires |waiting| == |stops| && DistinctStopIds(stops) && i < |stops|
    requires WaitingAfter(stops, waiting, v, rule)[i] > 0
    ensures AllLeaveFull(PredictVehicle(stops, waiting, v, rule), stops[i].stopId)
  {
    if EntryStop(stops, v).Some? {
      RideLeavesFull(stops, waiting, v, rule, EntryStop(stops, v).value, i);
    }
  }

  lemma {:induction false} FleetLeavesFull(stops: seq<StopState>, waiting: seq<int>, vehicles: seq<VehicleSnapshot>,
                                           rule: AlightingRule, i: nat)
    requires |waiting| == |stops| && DistinctStopIds(stops) && AllNonNegative(waiting) && i < |stops|
    requires LeftBy(stops, waiting, vehicles, rule)[i] > 0
    ensures AllLeaveFull(PredictAll(stops, waiting, vehicles, rule), stops[i].stopId)
    decreases |vehicles|
  {
    if vehicles != [] {
      var after := WaitingAfter(stops, waiting, vehicles[0], rule);
      Relief.WaitingStaysNonNegative(stops, waiting, vehicles[0], rule);
      Relief.LeftNeverGrows(stops, after, vehicles[1..], rule);
      VehicleLeavesFull(stops, waiting, vehicles[0], rule, i);
      FleetLeavesFull(stops, after, vehicles[1..], rule, i);
    }
  }

  /** Whoever is stranded at a stop was passed by full vehicles only: all that call there leave with no room. */
  lemma StrandedOnlyBesideFullVehicles(snapshot: RouteSnapshot, fraction: real, stopId: string)
    requires DistinctStopIds(snapshot.stops) && NonNegativeWaiting(snapshot.stops)
    requires StrandedAt(Predict(snapshot, fraction), stopId) > 0
    ensures AllLeaveFull(Predict(snapshot, fraction).vehiclePredictions, stopId)
  {
    var stops, left := snapshot.stops, LeftOver(snapshot, fraction);
    StrandedMapEntries(stops, left, |stops|);
    var i :| 0 <= i < |stops| && stops[i].stopId == stopId && left[i] > 0;
    FleetLeavesFull(stops, InitialWaiting(stops), FrontToBack(snapshot.vehicles), ByFraction(fraction), i);
  }
}
