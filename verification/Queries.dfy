/** The aggregation of prediction rows as it runs: one pass that fills dictionaries. */
module Queries {
  import opened Prelude
  import opened Ordering
  import opened PredictionTable

  /** The dictionary holds the report of every non-empty group and nothing else. */
  ghost predicate Tallied<V>(rows: seq<Row>, key: Key, report: seq<Row> -> V, m: map<string, V>) {
    forall id ::
      && (id in m <==> Group(rows, key, id) != [])
      && (id in m ==> m[id] == report(Group(rows, key, id)))
  }

  /** No rows, no prediction: the response for a route that was never predicted is empty. */
  lemma RegroupNothing()
    ensures Regroup([]) == ApiResult([], [], map[])
  {
    assert FirstSeen([], VehicleKey) == [] && FirstSeen([], StopKey) == [];
  }

  lemma GroupOfOneMore(before: seq<Row>, r: Row, key: Key, id: string)
    ensures Group(before + [r], key, id) == if key(r) == id then Group(before, key, id) + [r] else Group(before, key, id)
  {
    assert (before + [r])[..|before|] == before;
  }

  /** Reporting the grown group under its key keeps the dictionary in step with the rows. */
  lemma TallyOneMore<V>(before: seq<Row>, r: Row, key: Key, report: seq<Row> -> V, m: map<string, V>, v: V)
    requires Tallied(before, key, report, m) && v == report(Group(before, key, key(r)) + [r])
    ensures Tallied(before + [r], key, report, m[key(r) := v])
  {
    forall id
      ensures (id in m[key(r) := v] <==> Group(before + [r], key, id) != [])
           && (id in m[key(r) := v] ==> m[key(r) := v][id] == report(Group(before + [r], key, id)))
    {
      GroupOfOneMore(before, r, key, id);
    }
  }

  lemma {:induction false} SeenIffGrouped(rows: seq<Row>, key: Key, id: string)
    ensures id in FirstSeen(rows, key) <==> Group(rows, key, id) != []
  {
    if rows != [] {
      SeenIffGrouped(rows[..|rows| - 1], key, id);
    }
  }

  lemma SeenOneMore(before: seq<Row>, r: Row, key: Key)
    ensures FirstSeen(before + [r], key)
            == if Group(before, key, key(r)) != [] then FirstSeen(before, key) else FirstSeen(before, key) + [key(r)]
  {
    assert (before + [r])[..|before|] == before;
    SeenIffGrouped(before, key, key(r));
  }

  /** How the reports change when a group grows by one row. */
  lemma ReportsOfOneMore(group: seq<Row>, r: Row)
    ensures var first := if group == [] then r else group[0];
            var peak := if r.predictedOccupancyPct > PeakOf(group) then r.predictedOccupancyPct else PeakOf(group);
            && VehicleFrom(group + [r])
               == ApiVehicle(first.vehicleId, first.vehicleCapacity, first.confidence, peak, StopsOf(group) + [StopOf(r)])
            && InfoFrom(group + [r]) == ApiStopInfo(first.stopId, first.stopSequence, first.waitingAtStop)
            && WaitingFrom(group + [r]) == first.waitingAtStop.GetOr(0)
            && BoardedFrom(group + [r]) == BoardedFrom(group) + r.boarded
  {
    assert (group + [r])[..|group|] == group;
  }

  class PredictionQueries {

    /** The query's loop over the ordered rows of the latest prediction. */
    static method QueryPredictionsForRoute(rows: seq<Row>) returns (api: ApiResult)
      ensures api == Regroup(rows)
    {
      var order: seq<string>, vehicles: map<string, ApiVehicle> := [], map[];
      var stopOrder: seq<string>, stopSet: map<string, ApiStopInfo> := [], map[];
      var stopWaiting: map<string, int>, stopBoarded: map<string, int> := map[], map[];
      for n := 0 to |rows|
        invariant order == FirstSeen(rows[..n], VehicleKey) && stopOrder == FirstSeen(rows[..n], StopKey)
        invariant Tallied(rows[..n], VehicleKey, VehicleFrom, vehicles)
        invariant Tallied(rows[..n], StopKey, InfoFrom, stopSet)
        invariant Tallied(rows[..n], StopKey, WaitingFrom, stopWaiting)
        invariant Tallied(rows[..n], StopKey, BoardedFrom, stopBoarded)
      {
        TakeOneMore(rows, n);
        order, vehicles := TallyVehicle(rows[..n], rows[n], order, vehicles);
        stopOrder, stopSet := TallyStopSet(rows[..n], rows[n], stopOrder, stopSet);
        stopWaiting, stopBoarded := TallyCounts(rows[..n], rows[n], stopWaiting, stopBoarded);
      }
      FullSlices(rows);
      var listed := ListValues(rows, VehicleKey, VehicleFrom, order, vehicles);
      var infos := ListValues(rows, StopKey, InfoFrom, stopOrder, stopSet);
      var stranded := Subtract(rows, stopWaiting, stopBoarded);
      api := ApiResult(listed, Sort(BySequence, infos), stranded);
    }

    static method TallyVehicle(ghost before: seq<Row>, r: Row, order: seq<string>, vehicles: map<string, ApiVehicle>)
      returns (order': seq<string>, vehicles': map<string, ApiVehicle>)
      requires order == FirstSeen(before, VehicleKey) && Tallied(before, VehicleKey, VehicleFrom, vehicles)
      ensures order' == FirstSeen(before + [r], VehicleKey) && Tallied(before + [r], VehicleKey, VehicleFrom, vehicles')
    {
      order' := order;
      var vp;
      if r.vehicleId !in vehicles {
        order' := order + [r.vehicleId];
        vp := ApiVehicle(r.vehicleId, r.vehicleCapacity, r.confidence, 0.0, []);
      } else {
        vp := vehicles[r.vehicleId];
      }
      if r.predictedOccupancyPct > vp.peakOccupancyPct {
        vp := vp.(peakOccupancyPct := r.predictedOccupancyPct);
      }
      vp := vp.(stops := vp.stops + [StopOf(r)]);
      vehicles' := vehicles[r.vehicleId := vp];
      SeenOneMore(before, r, VehicleKey);
      ReportsOfOneMore(Group(before, VehicleKey, r.vehicleId), r);
      TallyOneMore(before, r, VehicleKey, VehicleFrom, vehicles, vp);
    }

    static method TallyStopSet(ghost before: seq<Row>, r: Row, stopOrder: seq<string>, stopSet: map<string, ApiStopInfo>)
      returns (stopOrder': seq<string>, stopSet': map<string, ApiStopInfo>)
      requires stopOrder == FirstSeen(before, StopKey) && Tallied(before, StopKey, InfoFrom, stopSet)
      ensures stopOrder' == FirstSeen(before + [r], StopKey) && Tallied(before + [r], StopKey, InfoFrom, stopSet')
    {
      stopOrder', stopSet' := stopOrder, stopSet;
      if r.stopId !in stopSet {
        stopOrder' := stopOrder + [r.stopId];
        stopSet' := stopSet[r.stopId := ApiStopInfo(r.stopId, r.stopSequence, r.waitingAtStop)];
      }
      SeenOneMore(before, r, StopKey);
      ReportsOfOneMore(Group(before, StopKey, r.stopId), r);
      TallyOneMore(before, r, StopKey, InfoFrom, stopSet, stopSet'[r.stopId]);
      assert stopSet'[r.stopId := stopSet'[r.stopId]] == stopSet';
    }

    static method TallyCounts(ghost before: seq<Row>, r: Row, stopWaiting: map<string, int>, stopBoarded: map<string, int>)
      returns (stopWaiting': map<string, int>, stopBoarded': map<string, int>)
      requires Tallied(before, StopKey, WaitingFrom, stopWaiting) && Tallied(before, StopKey, BoardedFrom, stopBoarded)
      ensures Tallied(before + [r], StopKey, WaitingFrom, stopWaiting')
      ensures Tallied(before + [r], StopKey, BoardedFrom, stopBoarded')
    {
      stopWaiting' := stopWaiting;
      if r.stopId !in stopWaiting {
        stopWaiting' := stopWaiting[r.stopId := r.waitingAtStop.GetOr(0)];
      }
      var soFar := if r.stopId in stopBoarded then stopBoarded[r.stopId] else 0;
      stopBoarded' := stopBoarded[r.stopId := soFar + r.boarded];
      ReportsOfOneMore(Group(before, StopKey, r.stopId), r);
      TallyOneMore(before, r, StopKey, WaitingFrom, stopWaiting, stopWaiting'[r.stopId]);
      assert stopWaiting[r.stopId := stopWaiting'[r.stopId]] == stopWaiting';
      TallyOneMore(before, r, StopKey, BoardedFrom, stopBoarded, soFar + r.boarded);
    }

    /** The values of a dictionary in insertion order. */
    static method ListValues<V>(ghost rows: seq<Row>, ghost key: Key, ghost report: seq<Row> -> V,
                                order: seq<string>, m: map<string, V>)
      returns (listed: seq<V>)
      requires order == FirstSeen(rows, key) && Tallied(rows, key, report, m)
      ensures listed == Reported(rows, key, report, order)
    {
      listed := [];
      for k := 0 to |order|
        invariant listed == Reported(rows, key, report, order[..k])
      {
        SeenIffGrouped(rows, key, order[k]);
        assert order[..k + 1][..k] == order[..k];
        listed := listed + [m[order[k]]];
      }
      FullSlices(order);
    }

    static method Subtract(ghost rows: seq<Row>, stopWaiting: map<string, int>, stopBoarded: map<string, int>)
      returns (stranded: map<string, int>)
      requires Tallied(rows, StopKey, WaitingFrom, stopWaiting) && Tallied(rows, StopKey, BoardedFrom, stopBoarded)
      ensures stranded == StrandedIn(rows)
    {
      forall id ensures id in stopWaiting <==> id in FirstSeen(rows, StopKey) {
        SeenIffGrouped(rows, StopKey, id);
      }
      stranded := map id | id in stopWaiting && stopWaiting[id] - stopBoarded[id] > 0
                  :: Max(0, stopWaiting[id] - stopBoarded[id]);
    }
  }
}
