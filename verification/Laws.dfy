/** Laws of a whole prediction: input order is irrelevant, and passengers are conserved. */
module Laws {
  import opened Prelude
  import opened Rounding
  import opened Ordering
  import opened Snapshots
  import opened Simulation
  import opened Stranded
  import Relief

  // Input order

  lemma DistinctIdsSeparate(vehicles: seq<VehicleSnapshot>)
    requires DistinctVehicleIds(vehicles)
    ensures Separates(AheadOrEqual, vehicles)
  {
    forall v, w | v in vehicles && w in vehicles && AheadOrEqual(v, w) && AheadOrEqual(w, v) ensures v == w {
      StringLeAntisymmetric(v.vehicleId, w.vehicleId);
    }
  }

  /** The prediction is the same for every ordering of the snapshot's vehicles. */
  lemma InputOrderIrrelevant(snapshot: RouteSnapshot, reordered: seq<VehicleSnapshot>, fraction: real)
    requires multiset(reordered) == multiset(snapshot.vehicles)
    requires DistinctVehicleIds(snapshot.vehicles)
    ensures Predict(snapshot.(vehicles := reordered), fraction) == Predict(snapshot, fraction)
  {
    AheadOrEqualTotal();
    DistinctIdsSeparate(snapshot.vehicles);
    SortForgetsOrder(AheadOrEqual, snapshot.vehicles, reordered);
  }

  function UpTo(vehicles: seq<VehicleSnapshot>, v: VehicleSnapshot, upTo: bool): seq<VehicleSnapshot> {
    if vehicles == [] then []
    else (if AheadOrEqual(vehicles[0], v) == upTo then [vehicles[0]] else []) + UpTo(vehicles[1..], v, upTo)
  }

  lemma {:induction false} UpToMultiplicity(vehicles: seq<VehicleSnapshot>, v: VehicleSnapshot, upTo: bool, w: VehicleSnapshot)
    ensures multiset(UpTo(vehicles, v, upTo))[w] == if AheadOrEqual(w, v) == upTo then multiset(vehicles)[w] else 0
  {
    if vehicles != [] {
      UpToMultiplicity(vehicles[1..], v, upTo, w);
      assert vehicles == [vehicles[0]] + vehicles[1..];
    }
  }

  lemma UpToPartitions(vehicles: seq<VehicleSnapshot>, v: VehicleSnapshot)
    ensures multiset(UpTo(vehicles, v, true)) + multiset(UpTo(vehicles, v, false)) == multiset(vehicles)
  {
    var front, back := UpTo(vehicles, v, true), UpTo(vehicles, v, false);
    forall w ensures (multiset(front) + multiset(back))[w] == multiset(vehicles)[w] {
      UpToMultiplicity(vehicles, v, true, w);
      UpToMultiplicity(vehicles, v, false, w);
    }
  }

  lemma SortedConcatenation(a: seq<VehicleSnapshot>, b: seq<VehicleSnapshot>)
    requires SortedBy(AheadOrEqual, a) && SortedBy(AheadOrEqual, b)
    requires forall x, y :: x in a && y in b ==> AheadOrEqual(x, y)
    ensures SortedBy(AheadOrEqual, a + b)
  {
  }

  /** Everyone up to v is ahead of everyone behind it. */
  lemma FrontBeforeBack(vehicles: seq<VehicleSnapshot>, v: VehicleSnapshot, x: VehicleSnapshot, y: VehicleSnapshot)
    requires x in FrontToBack(UpTo(vehicles, v, true)) && y in FrontToBack(UpTo(vehicles, v, false))
    ensures AheadOrEqual(x, y)
  {
    AllOnOneSide(vehicles, v, true, x);
    AllOnOneSide(vehicles, v, false, y);
    AheadOrEqualTotal();
    assert AheadOrEqual(v, y);
  }

  lemma PartsAreSorted(vehicles: seq<VehicleSnapshot>, v: VehicleSnapshot)
    ensures SortedBy(AheadOrEqual, FrontToBack(UpTo(vehicles, v, true)) + FrontToBack(UpTo(vehicles, v, false)))
  {
    var front, back := UpTo(vehicles, v, true), UpTo(vehicles, v, false);
    AheadOrEqualTotal();
    SortSorted(AheadOrEqual, front);
    SortSorted(AheadOrEqual, back);
    forall x, y | x in FrontToBack(front) && y in FrontToBack(back) ensures AheadOrEqual(x, y) {
      FrontBeforeBack(vehicles, v, x, y);
    }
    SortedConcatenation(FrontToBack(front), FrontToBack(back));
  }

  lemma PartsArePermuted(vehicles: seq<VehicleSnapshot>, v: VehicleSnapshot)
    ensures multiset(FrontToBack(UpTo(vehicles, v, true)) + FrontToBack(UpTo(vehicles, v, false))) == multiset(vehicles)
  {
    SortPermutes(AheadOrEqual, UpTo(vehicles, v, true));
    SortPermutes(AheadOrEqual, UpTo(vehicles, v, false));
    UpToPartitions(vehicles, v);
  }

  /** The front-to-back order splits at any vehicle into those up to it and those behind it. */
  lemma FrontToBackSplits(vehicles: seq<VehicleSnapshot>, v: VehicleSnapshot)
    requires DistinctVehicleIds(vehicles)
    ensures FrontToBack(vehicles) == FrontToBack(UpTo(vehicles, v, true)) + FrontToBack(UpTo(vehicles, v, false))
  {
    PartsAreSorted(vehicles, v);
    PartsArePermuted(vehicles, v);
    SortPermutes(AheadOrEqual, vehicles);
    AheadOrEqualTotal();
    SortSorted(AheadOrEqual, vehicles);
    DistinctIdsSeparate(vehicles);
    SameMembers(vehicles, FrontToBack(vehicles));
    SortedPermutationUnique(AheadOrEqual, FrontToBack(vehicles),
                            FrontToBack(UpTo(vehicles, v, true)) + FrontToBack(UpTo(vehicles, v, false)));
  }

  lemma AllOnOneSide(vehicles: seq<VehicleSnapshot>, v: VehicleSnapshot, upTo: bool, w: VehicleSnapshot)
    requires w in Sort(AheadOrEqual, UpTo(vehicles, v, upTo))
    ensures AheadOrEqual(w, v) == upTo && w in vehicles
  {
    SortPermutes(AheadOrEqual, UpTo(vehicles, v, upTo));
    assert w in multiset(Sort(AheadOrEqual, UpTo(vehicles, v, upTo)));
    UpToMultiplicity(vehicles, v, upTo, w);
    assert w in multiset(vehicles);
  }

  /** The entries of one vehicle in a list of predictions. */
  function EntriesOf(preds: seq<VehiclePrediction>, id: string): seq<VehiclePrediction> {
    if preds == [] then []
    else (if preds[0].vehicleId == id then [preds[0]] else []) + EntriesOf(preds[1..], id)
  }

  lemma {:induction false} EntriesOfAppend(a: seq<VehiclePrediction>, b: seq<VehiclePrediction>, id: string)
    ensures EntriesOf(a + b, id) == EntriesOf(a, id) + EntriesOf(b, id)
  {
    if a == [] {
      assert a + b == b;
    } else {
      DropFirstOfAppend(a, b);
      EntriesOfAppend(a[1..], b, id);
      AppendAssociative(if a[0].vehicleId == id then [a[0]] else [], EntriesOf(a[1..], id), EntriesOf(b, id));
    }
  }

  lemma {:induction false} NoEntriesOfStranger(stops: seq<StopState>, waiting: seq<int>, vehicles: seq<VehicleSnapshot>,
                                               rule: AlightingRule, id: string)
    requires |waiting| == |stops| && forall w :: w in vehicles ==> w.vehicleId != id
    ensures EntriesOf(PredictAll(stops, waiting, vehicles, rule), id) == []
    decreases |vehicles|
  {
    if vehicles != [] {
      var after := WaitingAfter(stops, waiting, vehicles[0], rule);
      NoEntriesOfStranger(stops, after, vehicles[1..], rule, id);
      EntriesOfAppend(PredictVehicle(stops, waiting, vehicles[0], rule), PredictAll(stops, after, vehicles[1..], rule), id);
    }
  }

  lemma EntriesDecidedUpTo(snapshot: RouteSnapshot, v: VehicleSnapshot, fraction: real)
    requires v in snapshot.vehicles && DistinctVehicleIds(snapshot.vehicles) && |snapshot.stops| > 1
    ensures var stops := snapshot.stops;
            EntriesOf(Predict(snapshot, fraction).vehiclePredictions, v.vehicleId)
            == EntriesOf(PredictAll(stops, InitialWaiting(stops), FrontToBack(UpTo(snapshot.vehicles, v, true)),
                                    ByFraction(fraction)), v.vehicleId)
  {
    var stops, rule := snapshot.stops, ByFraction(fraction);
    var front, back := FrontToBack(UpTo(snapshot.vehicles, v, true)), FrontToBack(UpTo(snapshot.vehicles, v, false));
    FrontToBackSplits(snapshot.vehicles, v);
    PredictTwoGroups(stops, InitialWaiting(stops), front, back, rule);
    forall w | w in back ensures w.vehicleId != v.vehicleId {
      AllOnOneSide(snapshot.vehicles, v, false, w);
      StringLeTotal(v.vehicleId, v.vehicleId);
    }
    var between := LeftBy(stops, InitialWaiting(stops), front, rule);
    NoEntriesOfStranger(stops, between, back, rule, v.vehicleId);
    EntriesOfAppend(PredictAll(stops, InitialWaiting(stops), front, rule), PredictAll(stops, between, back, rule), v.vehicleId);
  }

  /** A vehicle's predictions depend only on itself and the vehicles ahead of it. */
  lemma OnlyVehiclesAheadMatter(snapshot: RouteSnapshot, vehicles': seq<VehicleSnapshot>, v: VehicleSnapshot, fraction: real)
    requires v in snapshot.vehicles && v in vehicles'
    requires DistinctVehicleIds(snapshot.vehicles) && DistinctVehicleIds(vehicles')
    requires forall w :: AheadOrEqual(w, v) ==> multiset(vehicles')[w] == multiset(snapshot.vehicles)[w]
    ensures EntriesOf(Predict(snapshot.(vehicles := vehicles'), fraction).vehiclePredictions, v.vehicleId)
            == EntriesOf(Predict(snapshot, fraction).vehiclePredictions, v.vehicleId)
  {
    if |snapshot.stops| > 1 {
      EntriesDecidedUpTo(snapshot, v, fraction);
      EntriesDecidedUpTo(snapshot.(vehicles := vehicles'), v, fraction);
      var front, front' := UpTo(snapshot.vehicles, v, true), UpTo(vehicles', v, true);
      forall w ensures multiset(front)[w] == multiset(front')[w] {
        UpToMultiplicity(snapshot.vehicles, v, true, w);
        UpToMultiplicity(vehicles', v, true, w);
      }
      assert multiset(front) == multiset(front');
      AheadOrEqualTotal();
      DistinctIdsSeparate(snapshot.vehicles);
      forall w | w in front ensures w in snapshot.vehicles {
        UpToMultiplicity(snapshot.vehicles, v, true, w);
        assert w in multiset(front);
        assert w in multiset(snapshot.vehicles);
      }
      SortForgetsOrder(AheadOrEqual, front, front');
    }
  }

  lemma {:induction false} EntriesOfNone(preds: seq<VehiclePrediction>, id: string)
    ensures EntriesOf(preds, id) == [] <==> forall vp :: vp in preds ==> vp.vehicleId != id
  {
    if preds != [] {
      EntriesOfNone(preds[1..], id);
      MembersOfRest(preds);
      assert forall vp :: vp in preds ==> vp == preds[0] || vp in preds[1..];
    }
  }

  // Conservation

  /** How many board at a stop in one vehicle's list. */
  function BoardedIn(preds: seq<StopPrediction>, stopId: string): int {
    if preds == [] then 0
    else (if preds[0].stopId == stopId then preds[0].boarded else 0) + BoardedIn(preds[1..], stopId)
  }

  /** How many board at a stop over all vehicles. */
  function BoardedAt(preds: seq<VehiclePrediction>, stopId: string): int {
    if preds == [] then 0 else BoardedIn(preds[0].stops, stopId) + BoardedAt(preds[1..], stopId)
  }

  lemma {:induction false} BoardedAtAppend(a: seq<VehiclePrediction>, b: seq<VehiclePrediction>, stopId: string)
    ensures BoardedAt(a + b, stopId) == BoardedAt(a, stopId) + BoardedAt(b, stopId)
  {
    if a == [] {
      assert a + b == b;
    } else {
      DropFirstOfAppend(a, b);
      BoardedAtAppend(a[1..], b, stopId);
    }
  }

  lemma PredictionsOfRest(stops: seq<StopState>, start: nat, legs: seq<Leg>)
    requires start + |legs| <= |stops| && legs != []
    ensures PredictionsOf(stops, start, legs)[1..] == PredictionsOf(stops, start + 1, legs[1..])
  {
  }

  lemma {:induction false} BoardedInRide(stops: seq<StopState>, start: nat, legs: seq<Leg>, i: nat)
    requires start + |legs| <= |stops| && i < |stops| && DistinctStopIds(stops)
    ensures BoardedIn(PredictionsOf(stops, start, legs), stops[i].stopId) == BoardedOn(legs, start, i)
    decreases |legs|
  {
    if legs != [] {
      PredictionsOfRest(stops, start, legs);
      BoardedInRide(stops, start + 1, legs[1..], i);
    }
  }

  lemma VehicleConserves(stops: seq<StopState>, waiting: seq<int>, v: VehicleSnapshot, rule: AlightingRule, i: nat)
    requires |waiting| == |stops| && i < |stops| && DistinctStopIds(stops)
    ensures BoardedAt(PredictVehicle(stops, waiting, v, rule), stops[i].stopId)
            + WaitingAfter(stops, waiting, v, rule)[i] == waiting[i]
  {
    if EntryStop(stops, v).Some? {
      var start := EntryStop(stops, v).value;
      LegsLength(waiting, v.capacity, v.passengerCount, rule, start);
      BoardedInRide(stops, start, LegsOf(stops, waiting, v, rule), i);
    }
  }

  lemma {:induction false} FleetConserves(stops: seq<StopState>, waiting: seq<int>, vehicles: seq<VehicleSnapshot>,
                                          rule: AlightingRule, i: nat)
    requires |waiting| == |stops| && i < |stops| && DistinctStopIds(stops)
    ensures BoardedAt(PredictAll(stops, waiting, vehicles, rule), stops[i].stopId)
            + LeftBy(stops, waiting, vehicles, rule)[i] == waiting[i]
    decreases |vehicles|
  {
    if vehicles != [] {
      var after := WaitingAfter(stops, waiting, vehicles[0], rule);
      VehicleConserves(stops, waiting, vehicles[0], rule, i);
      FleetConserves(stops, after, vehicles[1..], rule, i);
      BoardedAtAppend(PredictVehicle(stops, waiting, vehicles[0], rule),
                      PredictAll(stops, after, vehicles[1..], rule), stops[i].stopId);
    }
  }

  lemma {:induction false} LeftOverNonNegative(stops: seq<StopState>, waiting: seq<int>, vehicles: seq<VehicleSnapshot>,
                                               rule: AlightingRule)
    requires AllNonNegative(waiting)
    ensures AllNonNegative(LeftBy(stops, waiting, vehicles, rule))
    decreases |vehicles|
  {
    if vehicles != [] {
      Relief.WaitingStaysNonNegative(stops, waiting, vehicles[0], rule);
      LeftOverNonNegative(stops, WaitingAfter(stops, waiting, vehicles[0], rule), vehicles[1..], rule);
    }
  }

  ghost predicate BalancedAt(snapshot: RouteSnapshot, r: RoutePredictionResult, i: nat)
    requires i < |snapshot.stops|
  {
    var id := snapshot.stops[i].stopId;
    BoardedAt(r.vehiclePredictions, id) + StrandedAt(r, id) == Waiting(snapshot.stops[i])
  }

  /**
   At every stop, those who board some vehicle and those stranded add up to those waiting, for any
   alighting fraction at all. The only exception is a route of a single stop with people at it,
   whose empty result forgets them.
   */
  lemma PassengersConserved(snapshot: RouteSnapshot, fraction: real)
    requires DistinctStopIds(snapshot.stops) && NonNegativeWaiting(snapshot.stops)
    ensures (forall i :: 0 <= i < |snapshot.stops| ==> BalancedAt(snapshot, Predict(snapshot, fraction), i))
            <==> !(|snapshot.stops| == 1 && Waiting(snapshot.stops[0]) > 0)
  {
    var stops, rule := snapshot.stops, ByFraction(fraction);
    var waiting, vehicles := InitialWaiting(stops), FrontToBack(snapshot.vehicles);
    if |stops| == 1 {
      assert BalancedAt(snapshot, Predict(snapshot, fraction), 0) <==> Waiting(stops[0]) == 0;
    } else if |stops| > 1 {
      LeftOverNonNegative(stops, waiting, vehicles, rule);
      StrandedMapEntries(stops, LeftOver(snapshot, fraction), |stops|);
      forall i | 0 <= i < |stops| ensures BalancedAt(snapshot, Predict(snapshot, fraction), i) {
        FleetConserves(stops, waiting, vehicles, rule, i);
      }
    }
  }

  function SumBoarded(preds: seq<VehiclePrediction>, stops: seq<StopState>, n: nat): int
    requires n <= |stops|
  {
    if n == 0 then 0 else SumBoarded(preds, stops, n - 1) + BoardedAt(preds, stops[n - 1].stopId)
  }

  function SumWaiting(stops: seq<StopState>, n: nat): int
    requires n <= |stops|
  {
    if n == 0 then 0 else SumWaiting(stops, n - 1) + Waiting(stops[n - 1])
  }

  lemma {:induction false} SumsBalance(stops: seq<StopState>, vehicles: seq<VehicleSnapshot>, rule: AlightingRule, n: nat)
    requires n <= |stops| && DistinctStopIds(stops) && NonNegativeWaiting(stops)
    ensures var waiting := InitialWaiting(stops);
            SumBoarded(PredictAll(stops, waiting, vehicles, rule), stops, n)
            + SumPositive(LeftBy(stops, waiting, vehicles, rule), n) == SumWaiting(stops, n)
  {
    if n > 0 {
      SumsBalance(stops, vehicles, rule, n - 1);
      FleetConserves(stops, InitialWaiting(stops), vehicles, rule, n - 1);
      LeftOverNonNegative(stops, InitialWaiting(stops), vehicles, rule);
    }
  }

  /** On a route of two or more stops, all who board and all who are stranded add up to all who wait. */
  lemma TotalsBalance(snapshot: RouteSnapshot, fraction: real)
    requires DistinctStopIds(snapshot.stops) && NonNegativeWaiting(snapshot.stops) && |snapshot.stops| > 1
    ensures var r := Predict(snapshot, fraction);
            SumBoarded(r.vehiclePredictions, snapshot.stops, |snapshot.stops|) + SumValues(r.strandedAtStops)
            == SumWaiting(snapshot.stops, |snapshot.stops|)
  {
    SumsBalance(snapshot.stops, FrontToBack(snapshot.vehicles), ByFraction(fraction), |snapshot.stops|);
    SumOfStranded(snapshot.stops, LeftOver(snapshot, fraction), |snapshot.stops|);
  }

  // Loads

  /** One recorded stop, given the load the vehicle arrived with. */
  ghost predicate SoundStop(sp: StopPrediction, arriving: int, capacity: int) {
    && sp.predictedPassengers == arriving - sp.alighted + sp.boarded
    && sp.predictedPassengers >= 0
    && (arriving <= capacity ==> sp.predictedPassengers <= capacity)
    && (arriving > capacity ==> sp.predictedPassengers <= arriving)
    && (arriving >= 0 ==> 0 <= sp.alighted <= arriving)
    && 0 <= sp.boarded <= sp.peopleWaitingAtStop.GetOr(0)
  }

  /** A whole recorded ride: every stop sound, each starting from the load the one before left with. */
  ghost predicate SoundRide(preds: seq<StopPrediction>, arriving: int, capacity: int) {
    preds == [] || (SoundStop(preds[0], arriving, capacity) && SoundRide(preds[1..], preds[0].predictedPassengers, capacity))
  }

  /** Nobody waits who was not counted: what is left never exceeds the snapshot's count. */
  ghost predicate WithinCounts(stops: seq<StopState>, waiting: seq<int>) {
    |waiting| == |stops| && forall i :: 0 <= i < |stops| ==> 0 <= waiting[i] <= Waiting(stops[i])
  }

  lemma SoundLeg(stop: StopState, waiting: int, capacity: int, arriving: int, fraction: real)
    requires 0.0 <= fraction <= 1.0 && 0 <= waiting <= Waiting(stop) && capacity > 0
    ensures SoundStop(PredictionAt(stop, LegAt(waiting, capacity, arriving, ByFraction(fraction))), arriving, capacity)
  {
    ShareRange(arriving, fraction);
  }

  lemma {:induction false} SoundLegs(stops: seq<StopState>, waiting: seq<int>, capacity: int, arriving: int, fraction: real, i: nat)
    requires 0.0 <= fraction <= 1.0 && WithinCounts(stops, waiting) && capacity > 0 && i < |stops|
    ensures var legs := Legs(waiting, capacity, arriving, ByFraction(fraction), i);
            i + |legs| <= |stops| && SoundRide(PredictionsOf(stops, i, legs), arriving, capacity)
    decreases |stops| - i
  {
    var legs := Legs(waiting, capacity, arriving, ByFraction(fraction), i);
    LegsLength(waiting, capacity, arriving, ByFraction(fraction), i);
    if i + 1 < |stops| {
      SoundLeg(stops[i], waiting[i], capacity, arriving, fraction);
      SoundLegs(stops, waiting, capacity, legs[0].load, fraction, i + 1);
      PredictionsOfRest(stops, i, legs);
    }
  }

  /** The entry lists the route's stops from the vehicle's next stop to the last before the terminus, in order. */
  ghost predicate CoversRoute(preds: seq<StopPrediction>, stops: seq<StopState>, start: nat) {
    && start + |preds| + 1 == |stops|
    && forall k :: 0 <= k < |preds| ==>
         && preds[k].stopId == stops[start + k].stopId && preds[k].stopSequence == stops[start + k].sequence
         && preds[k].peopleWaitingAtStop == stops[start + k].peopleWaiting
         && preds[k].hasData == stops[start + k].peopleWaiting.Some?
  }

  ghost predicate IsPeak(preds: seq<StopPrediction>, peak: int) {
    && (exists k :: 0 <= k < |preds| && preds[k].predictedPassengers == peak)
    && forall k :: 0 <= k < |preds| ==> preds[k].predictedPassengers <= peak
  }

  lemma {:induction false} PeakLoadIsPeak(preds: seq<StopPrediction>)
    requires preds != []
    ensures IsPeak(preds, PeakLoad(preds))
  {
    if |preds| > 1 {
      PeakLoadIsPeak(preds[1..]);
      var k :| 0 <= k < |preds[1..]| && preds[1..][k].predictedPassengers == PeakLoad(preds[1..]);
      assert preds[k + 1] == preds[1..][k];
      forall j | 0 <= j < |preds| ensures preds[j].predictedPassengers <= PeakLoad(preds) {
        assert j > 0 ==> preds[j] == preds[1..][j - 1];
      }
    }
  }

  /** The entry is this vehicle's: its ride over this route, with its peak and its occupancy. */
  ghost predicate IsEntryFor(vp: VehiclePrediction, v: VehicleSnapshot, stops: seq<StopState>) {
    && vp.vehicleId == v.vehicleId && vp.routeId == v.routeId && vp.vehicleCapacity == v.capacity > 0
    && (exists start: nat :: StopIndex(stops, v.currentStopSequence) == Some(start) && CoversRoute(vp.stops, stops, start))
    && SoundRide(vp.stops, v.passengerCount, v.capacity)
    && IsPeak(vp.stops, vp.peakLoad)
    && vp.peakOccupancyPct == vp.peakLoad as real / v.capacity as real
    && 0.0 <= vp.confidence <= 1.0
  }

  /** Some vehicle of the fleet accounts for this entry. */
  ghost predicate SoundEntry(vp: VehiclePrediction, vehicles: seq<VehicleSnapshot>, stops: seq<StopState>) {
    exists v :: v in vehicles && IsEntryFor(vp, v, stops)
  }

  lemma {:induction false} WithDataAtMostAll(preds: seq<StopPrediction>)
    ensures WithData(preds) <= |preds|
  {
    if preds != [] {
      WithDataAtMostAll(preds[..|preds| - 1]);
    }
  }

  lemma FractionInUnit(n: nat, d: nat)
    requires n <= d && d > 0
    ensures 0.0 <= n as real / d as real <= 1.0
  {
  }

  lemma SummaryIsEntry(v: VehicleSnapshot, preds: seq<StopPrediction>, stops: seq<StopState>, start: nat)
    requires preds != [] && v.capacity > 0 && StopIndex(stops, v.currentStopSequence) == Some(start)
    requires CoversRoute(preds, stops, start) && SoundRide(preds, v.passengerCount, v.capacity)
    ensures IsEntryFor(Summary(v, preds), v, stops)
  {
    PeakLoadIsPeak(preds);
    WithDataAtMostAll(preds);
    FractionInUnit(WithData(preds), |preds|);
  }

  /** What a vehicle that joins records is a sound ride over the rest of its route, and its entry sums it up. */
  lemma RideOfVehicle(stops: seq<StopState>, waiting: seq<int>, v: VehicleSnapshot, fraction: real, start: nat)
    returns (preds: seq<StopPrediction>)
    requires 0.0 <= fraction <= 1.0 && WithinCounts(stops, waiting) && EntryStop(stops, v) == Some(start)
    ensures CoversRoute(preds, stops, start) && SoundRide(preds, v.passengerCount, v.capacity)
    ensures PredictVehicle(stops, waiting, v, ByFraction(fraction)) == if preds == [] then [] else [Summary(v, preds)]
  {
    var legs := LegsOf(stops, waiting, v, ByFraction(fraction));
    LegsLength(waiting, v.capacity, v.passengerCount, ByFraction(fraction), start);
    SoundLegs(stops, waiting, v.capacity, v.passengerCount, fraction, start);
    preds := PredictionsOf(stops, start, legs);
  }

  lemma SoundVehicle(stops: seq<StopState>, waiting: seq<int>, v: VehicleSnapshot, fraction: real)
    requires 0.0 <= fraction <= 1.0 && WithinCounts(stops, waiting)
    ensures forall vp :: vp in PredictVehicle(stops, waiting, v, ByFraction(fraction)) ==> IsEntryFor(vp, v, stops)
  {
    if EntryStop(stops, v).Some? {
      var start := EntryStop(stops, v).value;
      var preds := RideOfVehicle(stops, waiting, v, fraction, start);
      if preds != [] {
        SummaryIsEntry(v, preds, stops, start);
      }
    }
  }

  lemma {:induction false} SoundFleet(stops: seq<StopState>, waiting: seq<int>, vehicles: seq<VehicleSnapshot>, fraction: real)
    requires 0.0 <= fraction <= 1.0 && WithinCounts(stops, waiting)
    ensures forall vp :: vp in PredictAll(stops, waiting, vehicles, ByFraction(fraction)) ==> SoundEntry(vp, vehicles, stops)
    decreases |vehicles|
  {
    if vehicles != [] {
      var v, rule := vehicles[0], ByFraction(fraction);
      var after := WaitingAfter(stops, waiting, v, rule);
      forall i | 0 <= i < |stops| ensures 0 <= after[i] <= Waiting(stops[i]) {
        if EntryStop(stops, v).Some? {
          Relief.LegsTakeFrom(waiting, v.capacity, v.passengerCount, rule, EntryStop(stops, v).value, i);
        }
      }
      SoundFleet(stops, after, vehicles[1..], fraction);
      SoundVehicle(stops, waiting, v, fraction);
      forall vp | vp in PredictAll(stops, waiting, vehicles, rule) ensures SoundEntry(vp, vehicles, stops) {
        if vp in PredictVehicle(stops, waiting, v, rule) {
          assert v in vehicles;
        } else {
          assert SoundEntry(vp, vehicles[1..], stops);
          var w :| w in vehicles[1..] && IsEntryFor(vp, w, stops);
          assert w in vehicles;
        }
      }
    }
  }

  // Who gets an entry

  /** The vehicle's next stop is on the route and before the terminus, and it can carry somebody. */
  predicate Joins(stops: seq<StopState>, v: VehicleSnapshot) {
    v.capacity > 0 && StopIndex(stops, v.currentStopSequence).Some?
    && StopIndex(stops, v.currentStopSequence).value + 1 < |stops|
  }

  lemma {:induction false} OneEntryEach(stops: seq<StopState>, waiting: seq<int>, vehicles: seq<VehicleSnapshot>,
                                        rule: AlightingRule, v: VehicleSnapshot)
    requires |waiting| == |stops|
    requires v in vehicles && DistinctVehicleIds(vehicles)
    ensures |EntriesOf(PredictAll(stops, waiting, vehicles, rule), v.vehicleId)| == if Joins(stops, v) then 1 else 0
    decreases |vehicles|
  {
    var w := vehicles[0];
    var after := WaitingAfter(stops, waiting, w, rule);
    var first, rest := PredictVehicle(stops, waiting, w, rule), PredictAll(stops, after, vehicles[1..], rule);
    EntriesOfAppend(first, rest, v.vehicleId);
    if EntryStop(stops, w).Some? {
      LegsLength(waiting, w.capacity, w.passengerCount, rule, EntryStop(stops, w).value);
    }
    if v == w {
      NoEntriesOfStranger(stops, after, vehicles[1..], rule, v.vehicleId);
    } else {
      OneEntryEach(stops, after, vehicles[1..], rule, v);
    }
  }

  /** A vehicle has exactly one entry if it joins the simulation, and none otherwise. */
  lemma EntryExactlyWhenJoins(snapshot: RouteSnapshot, v: VehicleSnapshot, fraction: real)
    requires v in snapshot.vehicles && DistinctVehicleIds(snapshot.vehicles)
    ensures |EntriesOf(Predict(snapshot, fraction).vehiclePredictions, v.vehicleId)|
            == if Joins(snapshot.stops, v) then 1 else 0
  {
    if |snapshot.stops| > 1 {
      var sorted := FrontToBack(snapshot.vehicles);
      SortPermutes(AheadOrEqual, snapshot.vehicles);
      SameMembers(snapshot.vehicles, sorted);
      DistinctIdsPermute(snapshot.vehicles, sorted);
      OneEntryEach(snapshot.stops, InitialWaiting(snapshot.stops), sorted, ByFraction(fraction), v);
    }
  }

  lemma DistinctIdsPermute(vehicles: seq<VehicleSnapshot>, permuted: seq<VehicleSnapshot>)
    requires DistinctVehicleIds(vehicles) && multiset(permuted) == multiset(vehicles)
    ensures DistinctVehicleIds(permuted)
  {
    DistinctByPermutes((v: VehicleSnapshot) => v.vehicleId, vehicles, permuted);
  }

  /**
   Every entry belongs to a vehicle of the snapshot and covers its stops up to the terminus. Along the
   ride the load is the previous load less those alighting plus those boarding, is
   never negative, and never grows beyond capacity: within capacity stays within, above never rises.
   */
  lemma LoadsAreSound(snapshot: RouteSnapshot, fraction: real)
    requires 0.0 <= fraction <= 1.0 && NonNegativeWaiting(snapshot.stops)
    ensures forall vp :: vp in Predict(snapshot, fraction).vehiclePredictions ==> SoundEntry(vp, snapshot.vehicles, snapshot.stops)
  {
    if |snapshot.stops| > 1 {
      SoundFleet(snapshot.stops, InitialWaiting(snapshot.stops), FrontToBack(snapshot.vehicles), fraction);
      SortPermutes(AheadOrEqual, snapshot.vehicles);
      SameMembers(snapshot.vehicles, FrontToBack(snapshot.vehicles));
      forall vp | vp in Predict(snapshot, fraction).vehiclePredictions ensures SoundEntry(vp, snapshot.vehicles, snapshot.stops) {
        assert SoundEntry(vp, FrontToBack(snapshot.vehicles), snapshot.stops);
        var v :| v in FrontToBack(snapshot.vehicles) && IsEntryFor(vp, v, snapshot.stops);
        assert v in snapshot.vehicles;
      }
    }
  }
}
