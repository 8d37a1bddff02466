/** Reading a written prediction back gives the engine's own result again. */
module ReadBack {
  import opened Prelude
  import opened Rounding
  import opened Ordering
  import opened Snapshots
  import opened Simulation
  import opened PredictionTable
  import opened Laws

  // What the reader should see

  function ShownStop(sp: StopPrediction): ApiStop {
    ApiStop(sp.stopId, sp.stopSequence, sp.predictedPassengers, sp.boarded, sp.alighted, sp.hasData)
  }

  /** One vehicle of the engine's result, with its rates rounded to four places. */
  function ShownVehicle(vp: VehiclePrediction): ApiVehicle {
    ApiVehicle(vp.vehicleId, vp.vehicleCapacity, Round4(vp.confidence), Round4(vp.peakOccupancyPct),
               seq(|vp.stops|, k requires 0 <= k < |vp.stops| => ShownStop(vp.stops[k])))
  }

  function ShownVehicles(preds: seq<VehiclePrediction>): seq<ApiVehicle> {
    if preds == [] then [] else ShownVehicles(preds[..|preds| - 1]) + [ShownVehicle(preds[|preds| - 1])]
  }

  predicate Visits(vp: VehiclePrediction, stopId: string) {
    exists k :: 0 <= k < |vp.stops| && vp.stops[k].stopId == stopId
  }

  predicate Visited(preds: seq<VehiclePrediction>, stopId: string) {
    exists v :: 0 <= v < |preds| && Visits(preds[v], stopId)
  }

  /** The route's visited stops in route order. */
  function VisitedInfos(stops: seq<StopState>, preds: seq<VehiclePrediction>): seq<ApiStopInfo> {
    if stops == [] then []
    else
      var last := stops[|stops| - 1];
      VisitedInfos(stops[..|stops| - 1], preds)
      + if Visited(preds, last.stopId) then [ApiStopInfo(last.stopId, last.sequence, last.peopleWaiting)] else []
  }

  function ById(textLe: (string, string) -> bool): (VehiclePrediction, VehiclePrediction) -> bool {
    (v: VehiclePrediction, w: VehiclePrediction) => textLe(v.vehicleId, w.vehicleId)
  }

  // The shape of a result that the engine produces

  /** Distinct vehicles of this route, each riding a stretch of its stops. */
  ghost predicate WellFormed(preds: seq<VehiclePrediction>, routeId: string, stops: seq<StopState>) {
    && DistinctEntries(preds)
    && forall vp :: vp in preds ==> EntryShape(vp, routeId, stops)
  }

  ghost predicate EntryShape(vp: VehiclePrediction, routeId: string, stops: seq<StopState>) {
    && vp.routeId == routeId && vp.stops != [] && vp.vehicleCapacity > 0
    && (exists start: nat :: CoversRoute(vp.stops, stops, start))
    && (forall k :: 0 <= k < |vp.stops| ==> vp.stops[k].predictedPassengers >= 0)
    && IsPeak(vp.stops, vp.peakLoad)
    && vp.peakOccupancyPct == vp.peakLoad as real / vp.vehicleCapacity as real
  }

  lemma {:induction false} SoundRideNonNegative(preds: seq<StopPrediction>, arriving: int, capacity: int, k: nat)
    requires SoundRide(preds, arriving, capacity) && k < |preds|
    ensures preds[k].predictedPassengers >= 0
  {
    if k > 0 {
      SoundRideNonNegative(preds[1..], preds[0].predictedPassengers, capacity, k - 1);
    }
  }

  ghost predicate OneOf(id: string, vehicles: seq<VehicleSnapshot>) {
    exists v :: v in vehicles && v.vehicleId == id
  }

  lemma {:induction false} IdsComeFromFleet(stops: seq<StopState>, waiting: seq<int>, vehicles: seq<VehicleSnapshot>,
                                            rule: AlightingRule, vp: VehiclePrediction)
    requires |waiting| == |stops| && vp in PredictAll(stops, waiting, vehicles, rule)
    ensures OneOf(vp.vehicleId, vehicles)
    decreases |vehicles|
  {
    if vp in PredictVehicle(stops, waiting, vehicles[0], rule) {
      assert vehicles[0] in vehicles;
    } else {
      IdsComeFromFleet(stops, WaitingAfter(stops, waiting, vehicles[0], rule), vehicles[1..], rule, vp);
      var v :| v in vehicles[1..] && v.vehicleId == vp.vehicleId;
      assert v in vehicles;
    }
  }

  ghost predicate DistinctEntries(preds: seq<VehiclePrediction>) {
    forall i, j :: 0 <= i < j < |preds| ==> preds[i].vehicleId != preds[j].vehicleId
  }

  lemma {:induction false} EntriesAreDistinct(stops: seq<StopState>, waiting: seq<int>, vehicles: seq<VehicleSnapshot>, rule: AlightingRule)
    requires |waiting| == |stops| && DistinctVehicleIds(vehicles)
    ensures DistinctEntries(PredictAll(stops, waiting, vehicles, rule))
    decreases |vehicles|
  {
    if vehicles != [] {
      var after := WaitingAfter(stops, waiting, vehicles[0], rule);
      var rest := PredictAll(stops, after, vehicles[1..], rule);
      EntriesAreDistinct(stops, after, vehicles[1..], rule);
      forall j | 0 <= j < |rest| ensures rest[j].vehicleId != vehicles[0].vehicleId {
        IdsComeFromFleet(stops, after, vehicles[1..], rule, rest[j]);
        var v :| v in vehicles[1..] && v.vehicleId == rest[j].vehicleId;
      }
    }
  }

  lemma ResultIsWellFormed(snapshot: RouteSnapshot, fraction: real)
    requires 0.0 <= fraction <= 1.0
    requires NonNegativeWaiting(snapshot.stops) && DistinctVehicleIds(snapshot.vehicles)
    requires forall v :: v in snapshot.vehicles ==> v.routeId == snapshot.routeId
    ensures WellFormed(Predict(snapshot, fraction).vehiclePredictions, snapshot.routeId, snapshot.stops)
  {
    var preds := Predict(snapshot, fraction).vehiclePredictions;
    LoadsAreSound(snapshot, fraction);
    if |snapshot.stops| > 1 {
      var sorted := FrontToBack(snapshot.vehicles);
      SortPermutes(AheadOrEqual, snapshot.vehicles);
      DistinctIdsPermute(snapshot.vehicles, sorted);
      EntriesAreDistinct(snapshot.stops, InitialWaiting(snapshot.stops), sorted, ByFraction(fraction));
    }
    forall vp | vp in preds ensures EntryShape(vp, snapshot.routeId, snapshot.stops) {
      var v :| v in snapshot.vehicles && IsEntryFor(vp, v, snapshot.stops);
      forall k | 0 <= k < |vp.stops| {
        SoundRideNonNegative(vp.stops, v.passengerCount, v.capacity, k);
      }
    }
  }

  // The selection is the written rows in the reader's order

  lemma {:induction false} SelectNothingEarlier(table: seq<Row>, routeId: string, directionId: int, now: int)
    requires forall r :: r in table && r.routeId == routeId && r.directionId == directionId ==> r.time < now
    ensures SelectRows(table, routeId, directionId, now) == []
    ensures LatestTime(table, routeId, directionId).Some? ==> LatestTime(table, routeId, directionId).value < now
  {
    if table != [] {
      SelectNothingEarlier(table[..|table| - 1], routeId, directionId, now);
    }
  }

  lemma {:induction false} SelectEverythingNew(table: seq<Row>, rows: seq<Row>, routeId: string, directionId: int, now: int)
    requires forall r :: r in table && r.routeId == routeId && r.directionId == directionId ==> r.time < now
    requires forall r :: r in rows ==> r.routeId == routeId && r.directionId == directionId && r.time == now
    ensures SelectRows(table + rows, routeId, directionId, now) == rows
    ensures rows != [] ==> LatestTime(table + rows, routeId, directionId) == Some(now)
  {
    if rows == [] {
      SelectNothingEarlier(table, routeId, directionId, now);
      assert table + rows == table;
    } else {
      var fewer := rows[..|rows| - 1];
      assert (table + rows)[..|table + rows| - 1] == table + fewer;
      SelectEverythingNew(table, fewer, routeId, directionId, now);
      SelectNothingEarlier(table, routeId, directionId, now);
      assert fewer == [] ==> table + fewer == table;
      assert rows == fewer + [rows[|rows| - 1]];
    }
  }

  lemma {:induction false} RowsComeFromStops(now: int, directionId: int, preds: seq<VehiclePrediction>, r: Row)
    requires r in RowsOf(now, directionId, preds)
    ensures exists v, k :: 0 <= v < |preds| && 0 <= k < |preds[v].stops|
              && r == RowOf(now, directionId, preds[v], preds[v].stops[k])
  {
    var last := preds[|preds| - 1];
    if r in RowsOf(now, directionId, preds[..|preds| - 1]) {
      RowsComeFromStops(now, directionId, preds[..|preds| - 1], r);
      var v, k :| 0 <= v < |preds| - 1 && 0 <= k < |preds[..|preds| - 1][v].stops|
                && r == RowOf(now, directionId, preds[..|preds| - 1][v], preds[..|preds| - 1][v].stops[k]);
      assert preds[..|preds| - 1][v] == preds[v];
    } else {
      var k :| 0 <= k < |last.stops| && VehicleRows(now, directionId, last, |last.stops|)[k] == r;
      assert preds[|preds| - 1].stops[k] == last.stops[k];
    }
  }

  /** The row that records one stop of a vehicle, column by column. */
  ghost predicate Records(r: Row, now: int, directionId: int, vp: VehiclePrediction, sp: StopPrediction) {
    && r.time == now && r.directionId == directionId
    && r.vehicleId == vp.vehicleId && r.routeId == vp.routeId && r.vehicleCapacity == vp.vehicleCapacity
    && r.stopId == sp.stopId && r.stopSequence == sp.stopSequence
    && r.predictedPassengers == sp.predictedPassengers && r.waitingAtStop == sp.peopleWaitingAtStop
    && r.boarded == sp.boarded && r.alighted == sp.alighted && r.hasData == sp.hasData
    && (if vp.vehicleCapacity > 0
        then StoredRate(r.predictedOccupancyPct, sp.predictedPassengers as real / vp.vehicleCapacity as real)
        else r.predictedOccupancyPct == 0.0)
    && StoredRate(r.confidence, vp.confidence)
  }

  lemma RowOfRecords(now: int, directionId: int, vp: VehiclePrediction, sp: StopPrediction)
    ensures Records(RowOf(now, directionId, vp, sp), now, directionId, vp, sp)
  {
    Round4IsStoredRate(vp.confidence);
    if vp.vehicleCapacity > 0 {
      Round4IsStoredRate(sp.predictedPassengers as real / vp.vehicleCapacity as real);
    }
  }

  /** How many stops the first n vehicles visit. */
  function StopsBefore(preds: seq<VehiclePrediction>, n: nat): nat
    requires n <= |preds|
  {
    if n == 0 then 0 else StopsBefore(preds, n - 1) + |preds[n - 1].stops|
  }

  lemma {:induction false} StopsBeforeFewer(preds: seq<VehiclePrediction>, m: nat, n: nat)
    requires n <= m <= |preds|
    ensures StopsBefore(preds[..m], n) == StopsBefore(preds, n)
  {
    if n > 0 {
      StopsBeforeFewer(preds, m, n - 1);
    }
  }

  lemma {:induction false} RowsCount(now: int, directionId: int, preds: seq<VehiclePrediction>)
    ensures |RowsOf(now, directionId, preds)| == StopsBefore(preds, |preds|)
  {
    if preds != [] {
      RowsCount(now, directionId, preds[..|preds| - 1]);
      StopsBeforeFewer(preds, |preds| - 1, |preds| - 1);
    }
  }

  /** The table holds one row for each stop of each vehicle, in that order, and it records that stop. */
  lemma {:induction false} RowsRecordResult(now: int, directionId: int, preds: seq<VehiclePrediction>, v: nat, k: nat)
    requires v < |preds| && k < |preds[v].stops|
    ensures |RowsOf(now, directionId, preds)| == StopsBefore(preds, |preds|)
    ensures StopsBefore(preds, v) + k < |RowsOf(now, directionId, preds)|
    ensures Records(RowsOf(now, directionId, preds)[StopsBefore(preds, v) + k], now, directionId, preds[v], preds[v].stops[k])
    decreases |preds|
  {
    var fewer := preds[..|preds| - 1];
    RowsCount(now, directionId, preds);
    RowsCount(now, directionId, fewer);
    StopsBeforeFewer(preds, |preds| - 1, |preds| - 1);
    if v < |preds| - 1 {
      RowsRecordResult(now, directionId, fewer, v, k);
      StopsBeforeFewer(preds, |preds| - 1, v);
    } else {
      RowOfRecords(now, directionId, preds[v], preds[v].stops[k]);
    }
  }

  lemma {:induction false} RowsOfAppend(now: int, directionId: int, a: seq<VehiclePrediction>, b: seq<VehiclePrediction>)
    ensures RowsOf(now, directionId, a + b) == RowsOf(now, directionId, a) + RowsOf(now, directionId, b)
  {
    if b == [] {
      assert a + b == a;
    } else {
      var last := b[|b| - 1];
      DropLastOfAppend(a, b);
      RowsOfAppend(now, directionId, a, b[..|b| - 1]);
      AppendAssociative(RowsOf(now, directionId, a), RowsOf(now, directionId, b[..|b| - 1]),
                        VehicleRows(now, directionId, last, |last.stops|));
    }
  }

  lemma RowsOfFirst(now: int, directionId: int, preds: seq<VehiclePrediction>)
    requires preds != []
    ensures RowsOf(now, directionId, preds)
            == VehicleRows(now, directionId, preds[0], |preds[0].stops|) + RowsOf(now, directionId, preds[1..])
  {
    CutAt(preds, 1);
    RowsOfAppend(now, directionId, preds[..1], preds[1..]);
    RowsOfOne(now, directionId, preds[0]);
    assert preds[..1] == [preds[0]];
  }

  lemma RowsOfOne(now: int, directionId: int, vp: VehiclePrediction)
    ensures RowsOf(now, directionId, [vp]) == VehicleRows(now, directionId, vp, |vp.stops|)
  {
    assert [vp][..0] == [];
    assert [] + VehicleRows(now, directionId, vp, |vp.stops|) == VehicleRows(now, directionId, vp, |vp.stops|);
  }

  /** Reordering the vehicles only reorders the rows. */
  lemma {:induction false} RowsOfInsert(now: int, directionId: int, le: (VehiclePrediction, VehiclePrediction) -> bool,
                                        vp: VehiclePrediction, preds: seq<VehiclePrediction>)
    ensures multiset(RowsOf(now, directionId, Insert(le, vp, preds)))
            == multiset(VehicleRows(now, directionId, vp, |vp.stops|)) + multiset(RowsOf(now, directionId, preds))
  {
    RowsOfFirst(now, directionId, [vp] + preds);
    assert ([vp] + preds)[1..] == preds;
    if preds != [] && !le(vp, preds[0]) {
      RowsOfFirst(now, directionId, preds);
      RowsOfInsert(now, directionId, le, vp, preds[1..]);
      RowsOfFirst(now, directionId, [preds[0]] + Insert(le, vp, preds[1..]));
      assert ([preds[0]] + Insert(le, vp, preds[1..]))[1..] == Insert(le, vp, preds[1..]);
    }
  }

  lemma {:induction false} RowsOfSorted(now: int, directionId: int, le: (VehiclePrediction, VehiclePrediction) -> bool,
                                        preds: seq<VehiclePrediction>)
    ensures multiset(RowsOf(now, directionId, Sort(le, preds))) == multiset(RowsOf(now, directionId, preds))
  {
    if preds != [] {
      RowsOfFirst(now, directionId, preds);
      RowsOfSorted(now, directionId, le, preds[1..]);
      RowsOfInsert(now, directionId, le, preds[0], Sort(le, preds[1..]));
    }
  }

  // The written rows, in id order, are the only order the query can return

  lemma CoveredSequencesIncrease(vp: VehiclePrediction, routeId: string, stops: seq<StopState>, j: nat, k: nat)
    requires EntryShape(vp, routeId, stops) && IncreasingSequences(stops) && j < k < |vp.stops|
    ensures vp.stops[j].stopSequence < vp.stops[k].stopSequence
  {
    var start: nat :| CoversRoute(vp.stops, stops, start);
  }

  lemma SequenceTellsStop(vp: VehiclePrediction, routeId: string, stops: seq<StopState>, j: nat, k: nat)
    requires EntryShape(vp, routeId, stops) && IncreasingSequences(stops) && j < |vp.stops| && k < |vp.stops|
    ensures vp.stops[j].stopSequence == vp.stops[k].stopSequence ==> j == k
  {
    if j < k {
      CoveredSequencesIncrease(vp, routeId, stops, j, k);
    } else if k < j {
      CoveredSequencesIncrease(vp, routeId, stops, k, j);
    }
  }

  lemma {:induction false} CanonicalIsSorted(now: int, directionId: int, preds: seq<VehiclePrediction>, routeId: string,
                                             stops: seq<StopState>, textLe: (string, string) -> bool)
    requires WellFormed(preds, routeId, stops) && IncreasingSequences(stops)
    requires SortedBy(ById(textLe), preds)
    ensures SortedBy(ByVehicleThenStop(textLe), RowsOf(now, directionId, preds))
  {
    if preds != [] {
      var fewer, last := preds[..|preds| - 1], preds[|preds| - 1];
      CanonicalIsSorted(now, directionId, fewer, routeId, stops, textLe);
      var before, block := RowsOf(now, directionId, fewer), VehicleRows(now, directionId, last, |last.stops|);
      forall i, j | 0 <= i < j < |before + block|
        ensures ByVehicleThenStop(textLe)((before + block)[i], (before + block)[j])
      {
        if j >= |before| {
          if i < |before| {
            RowsComeFromStops(now, directionId, fewer, before[i]);
            var v, k :| 0 <= v < |fewer| && 0 <= k < |fewer[v].stops|
                      && before[i] == RowOf(now, directionId, fewer[v], fewer[v].stops[k]);
            assert fewer[v] == preds[v];
            assert ById(textLe)(preds[v], last);
          } else {
            CoveredSequencesIncrease(last, routeId, stops, i - |before|, j - |before|);
          }
        }
      }
    }
  }

  lemma CanonicalSeparates(now: int, directionId: int, preds: seq<VehiclePrediction>, routeId: string,
                           stops: seq<StopState>, textLe: (string, string) -> bool)
    requires WellFormed(preds, routeId, stops) && IncreasingSequences(stops) && IsCollation(textLe)
    ensures Separates(ByVehicleThenStop(textLe), RowsOf(now, directionId, preds))
  {
    var rows, le := RowsOf(now, directionId, preds), ByVehicleThenStop(textLe);
    forall r, s | r in rows && s in rows && le(r, s) && le(s, r) ensures r == s {
      RowsComeFromStops(now, directionId, preds, r);
      RowsComeFromStops(now, directionId, preds, s);
      var v, k :| 0 <= v < |preds| && 0 <= k < |preds[v].stops| && r == RowOf(now, directionId, preds[v], preds[v].stops[k]);
      var w, l :| 0 <= w < |preds| && 0 <= l < |preds[w].stops| && s == RowOf(now, directionId, preds[w], preds[w].stops[l]);
      assert v == w;
      assert preds[v] in preds;
      SequenceTellsStop(preds[v], routeId, stops, k, l);
    }
  }

  lemma ByIdIsPreorder(textLe: (string, string) -> bool)
    requires IsCollation(textLe)
    ensures TotalPreorder(ById(textLe))
  {
    var le := ById(textLe);
    forall x, y ensures le(x, y) || le(y, x) {
      assert textLe(x.vehicleId, y.vehicleId) || textLe(y.vehicleId, x.vehicleId);
    }
    forall x, y, z | le(x, y) && le(y, z) ensures le(x, z) {
      assert textLe(x.vehicleId, y.vehicleId) && textLe(y.vehicleId, z.vehicleId);
    }
  }

  lemma SelectionIsCanonical(now: int, directionId: int, preds: seq<VehiclePrediction>, routeId: string,
                             stops: seq<StopState>, textLe: (string, string) -> bool, rows: seq<Row>)
    requires WellFormed(preds, routeId, stops) && IncreasingSequences(stops) && IsCollation(textLe)
    requires multiset(rows) == multiset(RowsOf(now, directionId, preds))
    requires SortedBy(ByVehicleThenStop(textLe), rows)
    ensures var sorted := Sort(ById(textLe), preds);
            WellFormed(sorted, routeId, stops) && rows == RowsOf(now, directionId, sorted)
  {
    var sorted := Sort(ById(textLe), preds);
    SortPermutes(ById(textLe), preds);
    ByIdIsPreorder(textLe);
    SortSorted(ById(textLe), preds);
    SameMembers(preds, sorted);
    DistinctEntriesPermute(preds, sorted);
    RowsOfSorted(now, directionId, ById(textLe), preds);
    CanonicalIsSorted(now, directionId, sorted, routeId, stops, textLe);
    CanonicalSeparates(now, directionId, sorted, routeId, stops, textLe);
    SortedPermutationUnique(ByVehicleThenStop(textLe), RowsOf(now, directionId, sorted), rows);
  }

  lemma DistinctEntriesPermute(preds: seq<VehiclePrediction>, permuted: seq<VehiclePrediction>)
    requires DistinctEntries(preds) && multiset(permuted) == multiset(preds)
    ensures DistinctEntries(permuted)
  {
    DistinctByPermutes((vp: VehiclePrediction) => vp.vehicleId, preds, permuted);
  }

  // Vehicles out of the canonical rows

  lemma {:induction false} GroupAppend(a: seq<Row>, b: seq<Row>, key: Key, id: string)
    ensures Group(a + b, key, id) == Group(a, key, id) + Group(b, key, id)
  {
    if b == [] {
      assert a + b == a;
    } else {
      assert (a + b)[..|a + b| - 1] == a + b[..|b| - 1];
      GroupAppend(a, b[..|b| - 1], key, id);
    }
  }

  lemma {:induction false} GroupOfBlock(now: int, directionId: int, vp: VehiclePrediction, n: nat, id: string)
    requires n <= |vp.stops|
    ensures Group(VehicleRows(now, directionId, vp, n), VehicleKey, id)
            == if id == vp.vehicleId then VehicleRows(now, directionId, vp, n) else []
  {
    if n > 0 {
      GroupOfBlock(now, directionId, vp, n - 1, id);
      assert VehicleRows(now, directionId, vp, n)[..n - 1] == VehicleRows(now, directionId, vp, n - 1);
    }
  }

  /** The last vehicle adds its rows to its own group and nothing to the others. */
  lemma GroupOfLast(now: int, directionId: int, preds: seq<VehiclePrediction>, id: string)
    requires preds != []
    ensures var last := preds[|preds| - 1];
            Group(RowsOf(now, directionId, preds), VehicleKey, id)
            == Group(RowsOf(now, directionId, preds[..|preds| - 1]), VehicleKey, id)
               + if id == last.vehicleId then VehicleRows(now, directionId, last, |last.stops|) else []
  {
    var last := preds[|preds| - 1];
    GroupOfBlock(now, directionId, last, |last.stops|, id);
    GroupAppend(RowsOf(now, directionId, preds[..|preds| - 1]),
                VehicleRows(now, directionId, last, |last.stops|), VehicleKey, id);
  }

  lemma {:induction false} GroupOfStranger(now: int, directionId: int, preds: seq<VehiclePrediction>, id: string)
    requires forall vp :: vp in preds ==> vp.vehicleId != id
    ensures Group(RowsOf(now, directionId, preds), VehicleKey, id) == []
  {
    if preds != [] {
      GroupOfStranger(now, directionId, preds[..|preds| - 1], id);
      GroupOfLast(now, directionId, preds, id);
    }
  }

  lemma LastIsStranger(preds: seq<VehiclePrediction>)
    requires DistinctEntries(preds) && preds != []
    ensures forall vp :: vp in preds[..|preds| - 1] ==> vp.vehicleId != preds[|preds| - 1].vehicleId
  {
  }

  lemma FewerDistinct(preds: seq<VehiclePrediction>)
    requires DistinctEntries(preds) && preds != []
    ensures DistinctEntries(preds[..|preds| - 1])
  {
  }

  lemma {:induction false} GroupOfVehicle(now: int, directionId: int, preds: seq<VehiclePrediction>, v: nat)
    requires v < |preds| && DistinctEntries(preds)
    ensures Group(RowsOf(now, directionId, preds), VehicleKey, preds[v].vehicleId)
            == VehicleRows(now, directionId, preds[v], |preds[v].stops|)
  {
    var fewer, id := preds[..|preds| - 1], preds[v].vehicleId;
    GroupOfLast(now, directionId, preds, id);
    if v == |preds| - 1 {
      LastIsStranger(preds);
      GroupOfStranger(now, directionId, fewer, id);
    } else {
      FewerDistinct(preds);
      GroupOfVehicle(now, directionId, fewer, v);
    }
  }

  function Ids(preds: seq<VehiclePrediction>): (ids: seq<string>)
    ensures |ids| == |preds|
    ensures forall v :: 0 <= v < |preds| ==> ids[v] == preds[v].vehicleId
  {
    if preds == [] then [] else Ids(preds[..|preds| - 1]) + [preds[|preds| - 1].vehicleId]
  }

  lemma {:induction false} SeenAfterBlock(before: seq<Row>, now: int, directionId: int, vp: VehiclePrediction, n: nat)
    requires 0 < n <= |vp.stops| && vp.vehicleId !in FirstSeen(before, VehicleKey)
    ensures FirstSeen(before + VehicleRows(now, directionId, vp, n), VehicleKey)
            == FirstSeen(before, VehicleKey) + [vp.vehicleId]
  {
    var fewer := VehicleRows(now, directionId, vp, n - 1);
    var rows := before + VehicleRows(now, directionId, vp, n);
    assert rows[..|rows| - 1] == before + fewer;
    if n == 1 {
      assert before + fewer == before;
    } else {
      SeenAfterBlock(before, now, directionId, vp, n - 1);
    }
  }

  lemma {:induction false} SeenVehicles(now: int, directionId: int, preds: seq<VehiclePrediction>)
    requires DistinctEntries(preds) && forall vp :: vp in preds ==> vp.stops != []
    ensures FirstSeen(RowsOf(now, directionId, preds), VehicleKey) == Ids(preds)
  {
    if preds != [] {
      var fewer, last := preds[..|preds| - 1], preds[|preds| - 1];
      SeenVehicles(now, directionId, fewer);
      SeenAfterBlock(RowsOf(now, directionId, fewer), now, directionId, last, |last.stops|);
    }
  }

  lemma RatioMonotone(a: int, b: int, c: int)
    requires a <= b && c > 0
    ensures a as real / c as real <= b as real / c as real
  {
  }

  lemma {:induction false} PeakOfGroup(group: seq<Row>, bound: real)
    requires bound >= 0.0 && forall k :: 0 <= k < |group| ==> group[k].predictedOccupancyPct <= bound
    ensures PeakOf(group) <= bound
    ensures forall k :: 0 <= k < |group| ==> group[k].predictedOccupancyPct <= PeakOf(group)
  {
    if group != [] {
      PeakOfGroup(group[..|group| - 1], bound);
    }
  }

  lemma OccupancyAtMostPeak(load: int, peak: int, capacity: int)
    requires 0 <= load <= peak && capacity > 0
    ensures 0.0 <= Round4(load as real / capacity as real) <= Round4(peak as real / capacity as real)
  {
    RatioMonotone(0, load, capacity);
    RatioMonotone(load, peak, capacity);
    Round4Monotone(0.0, load as real / capacity as real);
    Round4Monotone(load as real / capacity as real, peak as real / capacity as real);
    assert Round4(0.0) == 0.0;
  }

  lemma PeakOfBlock(now: int, directionId: int, vp: VehiclePrediction, routeId: string, stops: seq<StopState>)
    requires EntryShape(vp, routeId, stops)
    ensures PeakOf(VehicleRows(now, directionId, vp, |vp.stops|)) == Round4(vp.peakOccupancyPct)
  {
    var rows := VehicleRows(now, directionId, vp, |vp.stops|);
    forall k | 0 <= k < |rows| ensures 0.0 <= rows[k].predictedOccupancyPct <= Round4(vp.peakOccupancyPct) {
      OccupancyAtMostPeak(vp.stops[k].predictedPassengers, vp.peakLoad, vp.vehicleCapacity);
    }
    assert rows[0].predictedOccupancyPct >= 0.0;
    PeakOfGroup(rows, Round4(vp.peakOccupancyPct));
    var k :| 0 <= k < |vp.stops| && vp.stops[k].predictedPassengers == vp.peakLoad;
    assert rows[k].predictedOccupancyPct == Round4(vp.peakOccupancyPct);
  }

  lemma StopsAreShown(now: int, directionId: int, vp: VehiclePrediction)
    ensures StopsOf(VehicleRows(now, directionId, vp, |vp.stops|)) == ShownVehicle(vp).stops
  {
  }

  lemma BlockIsShown(now: int, directionId: int, vp: VehiclePrediction, routeId: string, stops: seq<StopState>)
    requires EntryShape(vp, routeId, stops)
    ensures VehicleFrom(VehicleRows(now, directionId, vp, |vp.stops|)) == ShownVehicle(vp)
  {
    PeakOfBlock(now, directionId, vp, routeId, stops);
    StopsAreShown(now, directionId, vp);
  }

  lemma {:induction false} ReportedVehicles(rows: seq<Row>, now: int, directionId: int, preds: seq<VehiclePrediction>,
                                            routeId: string, stops: seq<StopState>, n: nat)
    requires n <= |preds| && WellFormed(preds, routeId, stops) && rows == RowsOf(now, directionId, preds)
    ensures Reported(rows, VehicleKey, VehicleFrom, Ids(preds[..n])) == ShownVehicles(preds[..n])
  {
    if n > 0 {
      ReportedVehicles(rows, now, directionId, preds, routeId, stops, n - 1);
      TakeOneMore(preds, n - 1);
      assert (preds[..n - 1] + [preds[n - 1]])[..n - 1] == preds[..n - 1];
      assert Ids(preds[..n])[..n - 1] == Ids(preds[..n - 1]);
      assert preds[n - 1] in preds;
      GroupOfVehicle(now, directionId, preds, n - 1);
      BlockIsShown(now, directionId, preds[n - 1], routeId, stops);
    }
  }

  lemma VehiclesReadBack(now: int, directionId: int, preds: seq<VehiclePrediction>, routeId: string, stops: seq<StopState>)
    requires WellFormed(preds, routeId, stops)
    ensures Regroup(RowsOf(now, directionId, preds)).vehiclePredictions == ShownVehicles(preds)
  {
    SeenVehicles(now, directionId, preds);
    ReportedVehicles(RowsOf(now, directionId, preds), now, directionId, preds, routeId, stops, |preds|);
    FullSlices(preds);
  }

  /** The vehicle as shown, field by field. */
  ghost predicate ShownAs(shown: ApiVehicle, vp: VehiclePrediction) {
    && shown.vehicleId == vp.vehicleId && shown.vehicleCapacity == vp.vehicleCapacity
    && StoredRate(shown.confidence, vp.confidence) && StoredRate(shown.peakOccupancyPct, vp.peakOccupancyPct)
    && |shown.stops| == |vp.stops|
    && forall k :: 0 <= k < |vp.stops| ==> StopShownAs(shown.stops[k], vp.stops[k])
  }

  ghost predicate StopShownAs(shown: ApiStop, sp: StopPrediction) {
    && shown.stopId == sp.stopId && shown.stopSequence == sp.stopSequence
    && shown.predictedPassengers == sp.predictedPassengers
    && shown.boarded == sp.boarded && shown.alighted == sp.alighted && shown.hasData == sp.hasData
  }

  lemma {:induction false} ShownVehiclesSay(preds: seq<VehiclePrediction>)
    ensures |ShownVehicles(preds)| == |preds|
    ensures forall v :: 0 <= v < |preds| ==> ShownAs(ShownVehicles(preds)[v], preds[v])
  {
    if preds != [] {
      var last := preds[|preds| - 1];
      ShownVehiclesSay(preds[..|preds| - 1]);
      Round4IsStoredRate(last.confidence);
      Round4IsStoredRate(last.peakOccupancyPct);
      assert ShownAs(ShownVehicle(last), last);
    }
  }
}
