/**
 From the database to a prediction: the snapshot of a route takes this route's share of the crowd at
 each of its stops, and the predictions of all routes together account for the crowd.
 */
module SnapshotBuilder {
  import opened Prelude
  import opened Rounding
  import opened Snapshots
  import opened Simulation
  import opened CrowdShares
  import opened Laws
  import opened ReadBackStops

  /** One row of the vehicle query: the newest update of a trip on the route. */
  datatype TripRow = TripRow(tripId: string, routeId: string, stopSequence: int)

  /** What the queries return for one route and direction; the stops carry no counts yet. */
  datatype RouteData = RouteData(stops: seq<StopState>, trips: seq<TripRow>, arrivals: seq<EtaRow>)

  function VehicleOf(trip: TripRow, capacity: int): VehicleSnapshot {
    VehicleSnapshot(trip.tripId, trip.routeId, capacity, trip.stopSequence, 0)
  }

  function VehiclesOf(trips: seq<TripRow>, capacity: int): (vehicles: seq<VehicleSnapshot>)
    ensures |vehicles| == |trips|
    ensures forall k :: 0 <= k < |trips| ==> vehicles[k] == VehicleOf(trips[k], capacity)
  {
    seq(|trips|, k requires 0 <= k < |trips| => VehicleOf(trips[k], capacity))
  }

  function RawCount(crowd: map<string, int>, stopId: string): Option<int> {
    if stopId in crowd then Some(crowd[stopId]) else None
  }

  function WithShare(stop: StopState, crowd: map<string, int>, arrivals: seq<EtaRow>, key: RouteKey, now: int): StopState {
    stop.(peopleWaiting := ApplyShare(RawCount(crowd, stop.stopId), ShareAt(arrivals, stop.stopId, key, now)))
  }

  function SnapshotOf(key: RouteKey, data: RouteData, crowd: map<string, int>, capacity: int, now: int): (s: RouteSnapshot)
    ensures |s.stops| == |data.stops|
    ensures forall i :: 0 <= i < |data.stops| ==> s.stops[i] == WithShare(data.stops[i], crowd, data.arrivals, key, now)
  {
    RouteSnapshot(key.routeId, key.directionId,
                  seq(|data.stops|, i requires 0 <= i < |data.stops| =>
                                      WithShare(data.stops[i], crowd, data.arrivals, key, now)),
                  VehiclesOf(data.trips, capacity))
  }

  class Builder {
    const defaultCapacity: int

    constructor (defaultCapacity: int := 80)
      ensures this.defaultCapacity == defaultCapacity
    {
      this.defaultCapacity := defaultCapacity;
    }

    /** No snapshot for a route without stops. */
    method Build(key: RouteKey, data: RouteData, crowd: map<string, int>, now: int) returns (r: Option<RouteSnapshot>)
      ensures r == if data.stops == [] then None else Some(SnapshotOf(key, data, crowd, defaultCapacity, now))
    {
      var stops := data.stops;
      if stops == [] {
        return None;
      }
      var stopIds := seq(|stops|, i requires 0 <= i < |stops| => stops[i].stopId);
      assert forall i :: 0 <= i < |stops| ==> stopIds[i] == stops[i].stopId;
      var shares := ComputeCrowdShares(data.arrivals, stopIds, key, now);
      assert forall i :: 0 <= i < |stops| ==> stops[i].stopId in stopIds;
      var counted := seq(|stops|, i requires 0 <= i < |stops| =>
        StopState(stops[i].stopId, stops[i].sequence,
                  ApplyShare(RawCount(crowd, stops[i].stopId),
                             if stops[i].stopId in shares then shares[stops[i].stopId] else 1.0)));
      assert counted == SnapshotOf(key, data, crowd, defaultCapacity, now).stops;
      return Some(RouteSnapshot(key.routeId, key.directionId, counted, VehiclesOf(data.trips, defaultCapacity)));
    }
  }

  // What a built snapshot is

  /** A share is always positive and at most one, whatever rows the query returned. */
  lemma ShareInRange(rows: seq<EtaRow>, stopId: string, key: RouteKey, now: int)
    ensures 0.0 < ShareAt(rows, stopId, key, now) <= 1.0
  {
    var live := Live(EntriesAt(rows, stopId), now);
    if live != [] && Find(live, key).Some? {
      FoundWeighs(live, key);
      PartOfWhole(Weight(Find(live, key).value), SumWeights(live));
    }
  }

  lemma PartOfWhole(part: real, whole: real)
    requires 0.0 < part <= whole
    ensures 0.0 < part / whole <= 1.0
  {
    assert part / whole * whole == part;
  }

  /** What the route tables and the queries over them guarantee. */
  ghost predicate ProperData(key: RouteKey, data: RouteData, crowd: map<string, int>) {
    && DistinctStopIds(data.stops) && IncreasingSequences(data.stops)
    && (forall i, j :: 0 <= i < j < |data.trips| ==> data.trips[i].tripId != data.trips[j].tripId)
    && (forall trip :: trip in data.trips ==> trip.routeId == key.routeId)
    && forall id :: id in crowd ==> crowd[id] >= 0
  }

  /** A built snapshot meets everything that the laws of the prediction ask for. */
  lemma BuiltIsStorable(key: RouteKey, data: RouteData, crowd: map<string, int>, capacity: int, now: int)
    requires ProperData(key, data, crowd)
    ensures Storable(SnapshotOf(key, data, crowd, capacity, now))
  {
    var s := SnapshotOf(key, data, crowd, capacity, now);
    forall i | 0 <= i < |s.stops| ensures Waiting(s.stops[i]) >= 0 {
      ShareInRange(data.arrivals, s.stops[i].stopId, key, now);
      if s.stops[i].stopId in crowd {
        ShareRange(crowd[s.stops[i].stopId], ShareAt(data.arrivals, s.stops[i].stopId, key, now));
      }
    }
    forall v | v in s.vehicles ensures v.routeId == s.routeId {
      var k :| 0 <= k < |data.trips| && s.vehicles[k] == v;
      assert data.trips[k] in data.trips;
    }
  }

  /**
   A built snapshot is the route's: one vehicle for each row of the vehicle query, empty and of the default
   capacity, on its way to the row's stop; and each stop with its number and with nothing known if the
   stop was not counted, or else this route's share of the count to the nearest passenger, ties to even.
   */
  lemma BuiltFromRows(key: RouteKey, data: RouteData, crowd: map<string, int>, capacity: int, now: int)
    ensures var s := SnapshotOf(key, data, crowd, capacity, now);
            && s.routeId == key.routeId && s.directionId == key.directionId
            && |s.vehicles| == |data.trips| && |s.stops| == |data.stops|
            && (forall k :: 0 <= k < |data.trips| ==>
                  && s.vehicles[k].vehicleId == data.trips[k].tripId && s.vehicles[k].routeId == data.trips[k].routeId
                  && s.vehicles[k].currentStopSequence == data.trips[k].stopSequence
                  && s.vehicles[k].capacity == capacity && s.vehicles[k].passengerCount == 0)
            && forall i :: 0 <= i < |data.stops| ==> BuiltStop(s.stops[i], key, data, crowd, now, data.stops[i])
  {
    var s := SnapshotOf(key, data, crowd, capacity, now);
    forall i | 0 <= i < |data.stops| ensures BuiltStop(s.stops[i], key, data, crowd, now, data.stops[i]) {
      StopFromRow(key, data, crowd, now, data.stops[i]);
    }
  }

  ghost predicate BuiltStop(built: StopState, key: RouteKey, data: RouteData, crowd: map<string, int>, now: int, row: StopState) {
    && built.stopId == row.stopId && built.sequence == row.sequence
    && match built.peopleWaiting
       case None => row.stopId !in crowd
       case Some(n) => row.stopId in crowd
                       && IsNearestEven(crowd[row.stopId] as real * ShareAt(data.arrivals, row.stopId, key, now), n)
  }

  lemma StopFromRow(key: RouteKey, data: RouteData, crowd: map<string, int>, now: int, row: StopState)
    ensures BuiltStop(WithShare(row, crowd, data.arrivals, key, now), key, data, crowd, now, row)
  {
    if row.stopId in crowd {
      ShareIsNearest(crowd[row.stopId], ShareAt(data.arrivals, row.stopId, key, now));
    }
  }

  /**
   The prediction of a built snapshot has an entry for a trip exactly when its vehicles can carry somebody and
   the trip's next stop is on the route before the terminus.
   */
  lemma TripIsPredictedWhen(key: RouteKey, data: RouteData, crowd: map<string, int>, capacity: int, now: int,
                            fraction: real, trip: TripRow)
    requires ProperData(key, data, crowd) && trip in data.trips
    ensures (exists vp :: vp in Predict(SnapshotOf(key, data, crowd, capacity, now), fraction).vehiclePredictions
                          && vp.vehicleId == trip.tripId)
            <==> capacity > 0 && exists i :: 0 <= i < |data.stops| - 1 && data.stops[i].sequence == trip.stopSequence
  {
    var s := SnapshotOf(key, data, crowd, capacity, now);
    var v := VehicleFor(key, data, crowd, capacity, now, trip);
    BuiltIsStorable(key, data, crowd, capacity, now);
    EntryExactlyWhenJoins(s, v, fraction);
    EntriesOfNone(Predict(s, fraction).vehiclePredictions, trip.tripId);
    StopIndexIs(s.stops, trip.stopSequence);
    forall i | 0 <= i < |data.stops| ensures s.stops[i].sequence == data.stops[i].sequence {
    }
  }

  /** The vehicle that stands for a trip. */
  lemma VehicleFor(key: RouteKey, data: RouteData, crowd: map<string, int>, capacity: int, now: int, trip: TripRow)
    returns (v: VehicleSnapshot)
    requires trip in data.trips
    ensures v in SnapshotOf(key, data, crowd, capacity, now).vehicles
    ensures v == VehicleSnapshot(trip.tripId, trip.routeId, capacity, trip.stopSequence, 0)
  {
    var k :| 0 <= k < |data.trips| && data.trips[k] == trip;
    BuiltFromRows(key, data, crowd, capacity, now);
    v := SnapshotOf(key, data, crowd, capacity, now).vehicles[k];
    assert SnapshotOf(key, data, crowd, capacity, now).vehicles[k] in SnapshotOf(key, data, crowd, capacity, now).vehicles;
  }

  /**
   The entry of a trip is for the route and the default capacity, and begins at the trip's next stop, where the
   vehicle arrives empty: nobody alights there and it leaves with those who board.
   */
  lemma TripStartsEmpty(key: RouteKey, data: RouteData, crowd: map<string, int>, capacity: int, now: int,
                        fraction: real, trip: TripRow, vp: VehiclePrediction)
    requires ProperData(key, data, crowd) && trip in data.trips && 0.0 <= fraction <= 1.0
    requires vp in Predict(SnapshotOf(key, data, crowd, capacity, now), fraction).vehiclePredictions
    requires vp.vehicleId == trip.tripId
    ensures vp.routeId == key.routeId && vp.vehicleCapacity == capacity
    ensures vp.stops != [] && vp.stops[0].stopSequence == trip.stopSequence
    ensures vp.stops[0].alighted == 0 && vp.stops[0].predictedPassengers == vp.stops[0].boarded <= capacity
  {
    var s := SnapshotOf(key, data, crowd, capacity, now);
    var v := VehicleFor(key, data, crowd, capacity, now, trip);
    BuiltIsStorable(key, data, crowd, capacity, now);
    LoadsAreSound(s, fraction);
    var w :| w in s.vehicles && IsEntryFor(vp, w, s.stops);
    assert w == v;
    EntryStartsAt(vp, v, s.stops);
  }

  /** The first record of an entry is of the vehicle's next stop, with the load it arrives with. */
  lemma EntryStartsAt(vp: VehiclePrediction, v: VehicleSnapshot, stops: seq<StopState>)
    requires IsEntryFor(vp, v, stops)
    ensures vp.stops != [] && vp.stops[0].stopSequence == v.currentStopSequence
    ensures SoundStop(vp.stops[0], v.passengerCount, v.capacity)
  {
    var start: nat :| StopIndex(stops, v.currentStopSequence) == Some(start) && CoversRoute(vp.stops, stops, start);
    assert vp.stops[0].stopSequence == stops[start + 0].sequence;
  }

  // All routes at one stop

  /** Boarded and stranded at a stop, as a route's prediction has them. */
  function Accounted(snapshot: RouteSnapshot, fraction: real, stopId: string): int {
    var r := Predict(snapshot, fraction);
    BoardedAt(r.vehiclePredictions, stopId) + StrandedAt(r, stopId)
  }

  ghost predicate CallsAt(snapshot: RouteSnapshot, stopId: string) {
    exists i :: 0 <= i < |snapshot.stops| && snapshot.stops[i].stopId == stopId
  }

  lemma AccountedIsCount(key: RouteKey, data: RouteData, crowd: map<string, int>, capacity: int, now: int,
                         fraction: real, stopId: string)
    requires ProperData(key, data, crowd) && |data.stops| > 1 && stopId in crowd
    requires CallsAt(SnapshotOf(key, data, crowd, capacity, now), stopId)
    ensures Accounted(SnapshotOf(key, data, crowd, capacity, now), fraction, stopId)
            == Share(crowd[stopId], ShareAt(data.arrivals, stopId, key, now))
  {
    var s := SnapshotOf(key, data, crowd, capacity, now);
    BuiltIsStorable(key, data, crowd, capacity, now);
    PassengersConserved(s, fraction);
    var i :| 0 <= i < |s.stops| && s.stops[i].stopId == stopId;
    assert BalancedAt(s, Predict(s, fraction), i);
  }

  /** The rows of one stop as each route's own query returns them. */
  function Arrivals(dataFor: RouteKey -> RouteData): RouteKey -> seq<EtaRow> {
    (key: RouteKey) => dataFor(key).arrivals
  }

  /** What the predictions of the live routes account for at the stop. */
  function LiveAccounted(dataFor: RouteKey -> RouteData, crowd: map<string, int>, capacity: int, now: int,
                         fraction: real, stopId: string): EtaRow -> int {
    (r: EtaRow) =>
      if IsLive(r, now) then Accounted(SnapshotOf(r.key, dataFor(r.key), crowd, capacity, now), fraction, stopId) else 0
  }

  lemma {:induction false} SumCountsSame(f: EtaRow -> int, g: EtaRow -> int, rows: seq<EtaRow>)
    requires forall r :: r in rows ==> f(r) == g(r)
    ensures SumCounts(f, rows) == SumCounts(g, rows)
  {
    if rows != [] {
      assert rows[|rows| - 1] in rows;
      SumCountsSame(f, g, rows[..|rows| - 1]);
    }
  }

  /** The route has usable data, more than one stop, and calls at this one. */
  ghost predicate Serves(key: RouteKey, data: RouteData, crowd: map<string, int>, capacity: int, now: int, stopId: string) {
    ProperData(key, data, crowd) && |data.stops| > 1 && CallsAt(SnapshotOf(key, data, crowd, capacity, now), stopId)
  }

  /**
   Every route with a live arrival at a stop is snapshotted and predicted on its own. Together their
   predictions board or strand the crowd that was counted there, to within half a passenger per route.
   */
  lemma CrowdAccountedAcrossRoutes(dataFor: RouteKey -> RouteData, crowd: map<string, int>, capacity: int, now: int,
                                   fraction: real, stopId: string, base: seq<EtaRow>)
    requires UniqueKeys(base) && SameRowsAt(Arrivals(dataFor), stopId, base)
    requires exists r :: r in base && IsLive(r, now)
    requires stopId in crowd && crowd[stopId] >= 0
    requires forall r :: r in base && IsLive(r, now) ==> Serves(r.key, dataFor(r.key), crowd, capacity, now, stopId)
    ensures WithinHalves(crowd[stopId] as real,
                         SumCounts(LiveAccounted(dataFor, crowd, capacity, now, fraction, stopId), base),
                         LiveRoutes(base, now))
  {
    var counts := OwnCount(Arrivals(dataFor), stopId, now, crowd[stopId]);
    var accounted := LiveAccounted(dataFor, crowd, capacity, now, fraction, stopId);
    forall r | r in base ensures counts(r) == accounted(r) {
      if IsLive(r, now) {
        AccountedIsCount(r.key, dataFor(r.key), crowd, capacity, now, fraction, stopId);
      }
    }
    SumCountsSame(counts, accounted, base);
    RoundedCountsAddUp(Arrivals(dataFor), stopId, now, base, crowd[stopId]);
  }
}
