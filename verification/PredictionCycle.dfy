/** One prediction cycle: every route is snapshotted, predicted and written in turn, and then all are read. */
module PredictionCycle {
  import opened Prelude
  import opened Ordering
  import opened Rounding
  import opened Snapshots
  import opened Simulation
  import opened Engine
  import opened PredictionTable
  import opened Laws
  import opened ReadBack
  import opened ReadBackStops
  import opened LatestPredictions

  /**
   One route's turn: its snapshot, or None if there is none or building it raises; the clock of the write;
   and the statement of the write that raises, if any.
   */
  datatype Turn = Turn(snapshot: Option<RouteSnapshot>, now: int, failing: Option<nat>)

  /** What a turn adds to the table; a result without vehicles is not written. */
  function StoredBy(fraction: real, t: Turn): seq<Row> {
    if t.snapshot.None? then []
    else
      var result := Predict(t.snapshot.value, fraction);
      if result.vehiclePredictions == [] then [] else Stored(result, t.now, t.failing)
  }

  function BlocksOf(fraction: real, turns: seq<Turn>): (blocks: seq<seq<Row>>)
    ensures |blocks| == |turns|
    ensures forall n :: 0 <= n < |turns| ==> blocks[n] == StoredBy(fraction, turns[n])
  {
    seq(|turns|, n requires 0 <= n < |turns| => StoredBy(fraction, turns[n]))
  }

  /** A table with the first n blocks of rows appended. */
  function Appended(table: seq<Row>, blocks: seq<seq<Row>>, n: nat): seq<Row>
    requires n <= |blocks|
  {
    if n == 0 then table else Appended(table, blocks, n - 1) + blocks[n - 1]
  }

  function TableAfter(fraction: real, table: seq<Row>, turns: seq<Turn>): seq<Row> {
    Appended(table, BlocksOf(fraction, turns), |turns|)
  }

  /** The notifications with one more for each of the first n blocks that has rows. */
  function NoticesAfter(notices: seq<string>, blocks: seq<seq<Row>>, n: nat): seq<string>
    requires n <= |blocks|
  {
    if n == 0 then notices
    else NoticesAfter(notices, blocks, n - 1) + if blocks[n - 1] == [] then [] else ["predictions"]
  }

  /** One route's part of the cycle. */
  method RunTurn(engine: PredictionEngine, store: PredictionStore, t: Turn)
    modifies store
    ensures store.predictions == old(store.predictions) + StoredBy(engine.configuredFraction, t)
    ensures store.notifications
            == old(store.notifications) + if StoredBy(engine.configuredFraction, t) == [] then [] else ["predictions"]
  {
    if t.snapshot.None? {
      return;
    }
    var result := engine.PredictRoute(t.snapshot.value, None);
    if result.vehiclePredictions == [] {
      return;
    }
    store.WritePredictions(result, t.now, t.failing);
  }

  /** The cycle as it runs, without the evaluation of alerts. */
  method RunCycle(engine: PredictionEngine, store: PredictionStore, turns: seq<Turn>)
    modifies store
    ensures store.predictions == TableAfter(engine.configuredFraction, old(store.predictions), turns)
    ensures store.notifications
            == NoticesAfter(old(store.notifications), BlocksOf(engine.configuredFraction, turns), |turns|)
  {
    ghost var blocks := BlocksOf(engine.configuredFraction, turns);
    for n := 0 to |turns|
      invariant store.predictions == Appended(old(store.predictions), blocks, n)
      invariant store.notifications == NoticesAfter(old(store.notifications), blocks, n)
    {
      RunTurn(engine, store, turns[n]);
    }
  }

  /** A cycle that stores something says so, and nothing else: no other payload is ever added. */
  lemma {:induction false} CycleNotifies(notices: seq<string>, blocks: seq<seq<Row>>, n: nat)
    requires n <= |blocks|
    ensures var after := NoticesAfter(notices, blocks, n);
            && notices <= after
            && (forall k :: |notices| <= k < |after| ==> after[k] == "predictions")
            && (|after| > |notices| <==> exists k :: 0 <= k < n && blocks[k] != [])
  {
    if n > 0 {
      CycleNotifies(notices, blocks, n - 1);
    }
  }

  /** Proper snapshots only, and no two turns for the same route and direction. */
  ghost predicate ProperTurns(turns: seq<Turn>) {
    && (forall n :: 0 <= n < |turns| && turns[n].snapshot.Some? ==> Storable(turns[n].snapshot.value))
    && forall m, n :: 0 <= m < n < |turns| && turns[m].snapshot.Some? && turns[n].snapshot.Some? ==>
         !SameRouteDirection(turns[m].snapshot.value, turns[n].snapshot.value)
  }

  predicate SameRouteDirection(a: RouteSnapshot, b: RouteSnapshot) {
    a.routeId == b.routeId && a.directionId == b.directionId
  }

  lemma StoredAreOwn(fraction: real, t: Turn)
    requires 0.0 <= fraction <= 1.0 && (t.snapshot.Some? ==> Storable(t.snapshot.value))
    ensures forall r :: r in StoredBy(fraction, t) ==>
              t.snapshot.Some? && r.routeId == t.snapshot.value.routeId && r.directionId == t.snapshot.value.directionId
  {
    if t.snapshot.Some? {
      var s := t.snapshot.value;
      ResultIsWellFormed(s, fraction);
      RowsAreTagged(t.now, s.directionId, Predict(s, fraction).vehiclePredictions, s.routeId, s.stops);
    }
  }

  lemma StoredByOther(fraction: real, t: Turn, routeId: string, directionId: int)
    requires 0.0 <= fraction <= 1.0 && (t.snapshot.Some? ==> Storable(t.snapshot.value))
    requires StoredBy(fraction, t) != [] ==> !IsTurnOf(t, routeId, directionId)
    ensures OfOthers(StoredBy(fraction, t), routeId, directionId)
  {
    StoredAreOwn(fraction, t);
  }

  predicate IsTurnOf(t: Turn, routeId: string, directionId: int) {
    t.snapshot.Some? && t.snapshot.value.routeId == routeId && t.snapshot.value.directionId == directionId
  }

  /** Some vehicle can carry somebody and is on its way to a stop before the terminus. */
  ghost predicate InService(s: RouteSnapshot) {
    exists v, i :: v in s.vehicles && v.capacity > 0 && 0 <= i < |s.stops| - 1 && s.stops[i].sequence == v.currentStopSequence
  }

  lemma PredictedIffInService(s: RouteSnapshot, fraction: real)
    requires 0.0 <= fraction <= 1.0 && Storable(s)
    ensures Predict(s, fraction).vehiclePredictions != [] <==> InService(s)
  {
    var preds := Predict(s, fraction).vehiclePredictions;
    if InService(s) {
      var v, i :| v in s.vehicles && v.capacity > 0 && 0 <= i < |s.stops| - 1 && s.stops[i].sequence == v.currentStopSequence;
      StopIndexIs(s.stops, v.currentStopSequence);
      var vp := EntryOf(s, v, fraction);
    }
    if preds != [] {
      ResultIsWellFormed(s, fraction);
      LoadsAreSound(s, fraction);
      assert preds[0] in preds;
      var v :| v in s.vehicles && IsEntryFor(preds[0], v, s.stops);
      var start: nat :| StopIndex(s.stops, v.currentStopSequence) == Some(start) && CoversRoute(preds[0].stops, s.stops, start);
      assert s.stops[start].sequence == v.currentStopSequence && preds[0].stops != [];
    }
  }

  /**
   A turn stores something exactly when its route is in service and no statement of the write raises: neither
   the insert of a row for a stop of a vehicle, nor the notification, nor the commit. Then it stores them all.
   */
  lemma StoredExactlyWhen(fraction: real, t: Turn)
    requires 0.0 <= fraction <= 1.0 && t.snapshot.Some? && Storable(t.snapshot.value)
    ensures var preds := Predict(t.snapshot.value, fraction).vehiclePredictions;
            && (StoredBy(fraction, t) != []
                <==> InService(t.snapshot.value) && (t.failing.None? || t.failing.value >= StopsBefore(preds, |preds|) + 2))
            && (StoredBy(fraction, t) != [] ==> |StoredBy(fraction, t)| == StopsBefore(preds, |preds|))
  {
    var s := t.snapshot.value;
    var preds := Predict(s, fraction).vehiclePredictions;
    PredictedIffInService(s, fraction);
    RowsCount(t.now, s.directionId, preds);
    StoredCases(Predict(s, fraction), t.now, t.failing, RowsOf(t.now, s.directionId, preds));
    if preds != [] {
      ResultIsWellFormed(s, fraction);
      assert preds[0] in preds;
      StopsHaveRows(t.now, s.directionId, preds, 0, 0);
    }
  }

  /** The blocks from m up to n hold nothing of this route and direction. */
  ghost predicate OtherBlocks(blocks: seq<seq<Row>>, m: nat, n: nat, routeId: string, directionId: int)
    requires m <= n <= |blocks|
  {
    forall k :: m <= k < n ==> OfOthers(blocks[k], routeId, directionId)
  }

  lemma AddBlock(table: seq<Row>, before: seq<Row>, rows: seq<Row>, routeId: string, directionId: int) returns (added: seq<Row>)
    requires OfOthers(before, routeId, directionId) && OfOthers(rows, routeId, directionId)
    ensures OfOthers(added, routeId, directionId) && table + before + rows == table + added
  {
    added := before + rows;
  }

  /** Such blocks only add rows of other routes. */
  lemma {:induction false} OtherBlocksAddOthers(table: seq<Row>, blocks: seq<seq<Row>>, m: nat, n: nat,
                                                routeId: string, directionId: int)
    returns (added: seq<Row>)
    requires m <= n <= |blocks| && OtherBlocks(blocks, m, n, routeId, directionId)
    ensures Appended(table, blocks, n) == Appended(table, blocks, m) + added && OfOthers(added, routeId, directionId)
    decreases n - m
  {
    if m == n {
      added := [];
    } else {
      var before := OtherBlocksAddOthers(table, blocks, m, n - 1, routeId, directionId);
      added := AddBlock(Appended(table, blocks, m), before, blocks[n - 1], routeId, directionId);
    }
  }

  lemma EarlierStaysEarlier(table: seq<Row>, added: seq<Row>, routeId: string, directionId: int, now: int)
    requires AllEarlier(table, routeId, directionId, now) && OfOthers(added, routeId, directionId)
    ensures AllEarlier(table + added, routeId, directionId, now)
  {
  }

  /** What the API must show of a route's prediction. */
  function Shown(s: RouteSnapshot, fraction: real, textLe: (string, string) -> bool): ApiResult {
    var result := Predict(s, fraction);
    ApiResult(ShownVehicles(Sort(ById(textLe), result.vehiclePredictions)),
              VisitedInfos(s.stops, result.vehiclePredictions),
              OnlyVisited(result.strandedAtStops, result.vehiclePredictions))
  }

  lemma OthersAround(fraction: real, turns: seq<Turn>, n: nat)
    requires 0.0 <= fraction <= 1.0 && ProperTurns(turns) && n < |turns| && turns[n].snapshot.Some?
    ensures var s := turns[n].snapshot.value;
            && OtherBlocks(BlocksOf(fraction, turns), 0, n, s.routeId, s.directionId)
            && OtherBlocks(BlocksOf(fraction, turns), n + 1, |turns|, s.routeId, s.directionId)
  {
    var s := turns[n].snapshot.value;
    forall k | 0 <= k < |turns| && k != n ensures OfOthers(StoredBy(fraction, turns[k]), s.routeId, s.directionId) {
      StoredByOther(fraction, turns[k], s.routeId, s.directionId);
    }
  }

  /**
   After a whole cycle, in which some routes have no snapshot, no vehicles or a failing write, every route
   whose prediction was stored is read back as the engine predicted it, wherever its turn came.
   */
  lemma CycleReadBack(fraction: real, table: seq<Row>, turns: seq<Turn>, n: nat, textLe: (string, string) -> bool, rows: seq<Row>)
    requires 0.0 <= fraction <= 1.0 && ProperTurns(turns) && IsCollation(textLe)
    requires n < |turns| && StoredBy(fraction, turns[n]) != []
    requires AllEarlier(table, turns[n].snapshot.value.routeId, turns[n].snapshot.value.directionId, turns[n].now)
    requires MayReadLatest(rows, TableAfter(fraction, table, turns), turns[n].snapshot.value.routeId,
                           turns[n].snapshot.value.directionId, textLe)
    ensures Regroup(rows) == Shown(turns[n].snapshot.value, fraction, textLe)
  {
    var s := turns[n].snapshot.value;
    OthersAround(fraction, turns, n);
    var blocks := BlocksOf(fraction, turns);
    var before := OtherBlocksAddOthers(table, blocks, 0, n, s.routeId, s.directionId);
    var later := OtherBlocksAddOthers(table, blocks, n + 1, |turns|, s.routeId, s.directionId);
    EarlierStaysEarlier(table, before, s.routeId, s.directionId, turns[n].now);
    WrittenThenReadBack(s, fraction, table + before, turns[n].now, later, textLe, rows);
  }

  /** So every route in service whose write does not fail is read back as predicted. */
  lemma ServedRouteIsReadBack(fraction: real, table: seq<Row>, turns: seq<Turn>, n: nat, textLe: (string, string) -> bool,
                              rows: seq<Row>)
    requires 0.0 <= fraction <= 1.0 && ProperTurns(turns) && IsCollation(textLe)
    requires n < |turns| && turns[n].snapshot.Some? && InService(turns[n].snapshot.value) && turns[n].failing.None?
    requires AllEarlier(table, turns[n].snapshot.value.routeId, turns[n].snapshot.value.directionId, turns[n].now)
    requires MayReadLatest(rows, TableAfter(fraction, table, turns), turns[n].snapshot.value.routeId,
                           turns[n].snapshot.value.directionId, textLe)
    ensures Regroup(rows) == Shown(turns[n].snapshot.value, fraction, textLe)
  {
    StoredExactlyWhen(fraction, turns[n]);
    CycleReadBack(fraction, table, turns, n, textLe, rows);
  }

  /** The reader is given the written rows, vehicles by id, and the newest time is that of the route's own write. */
  lemma CycleRows(fraction: real, table: seq<Row>, turns: seq<Turn>, n: nat, textLe: (string, string) -> bool, rows: seq<Row>)
    requires 0.0 <= fraction <= 1.0 && ProperTurns(turns) && IsCollation(textLe)
    requires n < |turns| && StoredBy(fraction, turns[n]) != []
    requires AllEarlier(table, turns[n].snapshot.value.routeId, turns[n].snapshot.value.directionId, turns[n].now)
    requires MayReadLatest(rows, TableAfter(fraction, table, turns), turns[n].snapshot.value.routeId,
                           turns[n].snapshot.value.directionId, textLe)
    ensures var s := turns[n].snapshot.value;
            && rows == RowsOf(turns[n].now, s.directionId, Sort(ById(textLe), Predict(s, fraction).vehiclePredictions))
            && LatestTime(TableAfter(fraction, table, turns), s.routeId, s.directionId) == Some(turns[n].now)
  {
    var s, now := turns[n].snapshot.value, turns[n].now;
    var preds := Predict(s, fraction).vehiclePredictions;
    OthersAround(fraction, turns, n);
    var blocks := BlocksOf(fraction, turns);
    var before := OtherBlocksAddOthers(table, blocks, 0, n, s.routeId, s.directionId);
    var later := OtherBlocksAddOthers(table, blocks, n + 1, |turns|, s.routeId, s.directionId);
    EarlierStaysEarlier(table, before, s.routeId, s.directionId, now);
    ResultIsWellFormed(s, fraction);
    OthersUnread(rows, table + before + blocks[n], later, s.routeId, s.directionId, textLe);
    LatestIsWhatWasWritten(s, preds, table + before, now, textLe, rows);
    RowsAreTagged(now, s.directionId, preds, s.routeId, s.stops);
    SelectEverythingNew(table + before, blocks[n], s.routeId, s.directionId, now);
    OthersIgnored(table + before + blocks[n], later, s.routeId, s.directionId, now);
  }

  lemma {:induction false} BlockIsKept(table: seq<Row>, blocks: seq<seq<Row>>, k: nat, n: nat, r: Row)
    requires k < n <= |blocks| && r in blocks[k]
    ensures r in Appended(table, blocks, n)
  {
    if k < n - 1 {
      BlockIsKept(table, blocks, k, n - 1, r);
    }
  }

  lemma RowOrderIsPreorder(textLe: (string, string) -> bool)
    requires IsCollation(textLe)
    ensures TotalPreorder(ByVehicleThenStop(textLe))
  {
    var le := ByVehicleThenStop(textLe);
    forall x, y ensures le(x, y) || le(y, x) {
      assert textLe(x.vehicleId, y.vehicleId) || textLe(y.vehicleId, x.vehicleId);
    }
    forall x, y, z | le(x, y) && le(y, z) ensures le(x, z) {
      if x.vehicleId != y.vehicleId && y.vehicleId != z.vehicleId {
        assert textLe(x.vehicleId, y.vehicleId) && textLe(y.vehicleId, z.vehicleId);
      }
    }
  }

  lemma {:induction false} LatestOfMember(table: seq<Row>, r: Row)
    requires r in table
    ensures LatestTime(table, r.routeId, r.directionId).Some?
  {
    if table[|table| - 1] != r {
      LatestOfMember(table[..|table| - 1], r);
    }
  }

  /** The reader always gets something for a route that has rows. */
  lemma SomethingIsRead(table: seq<Row>, r: Row, textLe: (string, string) -> bool) returns (rows: seq<Row>)
    requires r in table && IsCollation(textLe)
    ensures MayReadLatest(rows, table, r.routeId, r.directionId, textLe)
  {
    LatestOfMember(table, r);
    var selected := SelectRows(table, r.routeId, r.directionId, LatestTime(table, r.routeId, r.directionId).value);
    RowOrderIsPreorder(textLe);
    rows := Sort(ByVehicleThenStop(textLe), selected);
    SortPermutes(ByVehicleThenStop(textLe), selected);
    SortSorted(ByVehicleThenStop(textLe), selected);
  }

  /** After a cycle there is something to read for every stored route. */
  lemma StoredIsReadable(fraction: real, table: seq<Row>, turns: seq<Turn>, n: nat, textLe: (string, string) -> bool)
    returns (rows: seq<Row>)
    requires 0.0 <= fraction <= 1.0 && ProperTurns(turns) && IsCollation(textLe)
    requires n < |turns| && StoredBy(fraction, turns[n]) != []
    ensures MayReadLatest(rows, TableAfter(fraction, table, turns), turns[n].snapshot.value.routeId,
                          turns[n].snapshot.value.directionId, textLe)
  {
    var r := StoredBy(fraction, turns[n])[0];
    StoredAreOwn(fraction, turns[n]);
    BlockIsKept(table, BlocksOf(fraction, turns), n, |turns|, r);
    rows := SomethingIsRead(TableAfter(fraction, table, turns), r, textLe);
  }

  /** A route that stores nothing in a cycle is shown as before it: its last prediction stays up, however old. */
  lemma UnstoredRouteStaysAsItWas(fraction: real, table: seq<Row>, turns: seq<Turn>, routeId: string, directionId: int,
                                  textLe: (string, string) -> bool, rows: seq<Row>)
    requires 0.0 <= fraction <= 1.0 && ProperTurns(turns)
    requires forall n :: 0 <= n < |turns| && StoredBy(fraction, turns[n]) != [] ==> !IsTurnOf(turns[n], routeId, directionId)
    ensures MayReadLatest(rows, TableAfter(fraction, table, turns), routeId, directionId, textLe)
            <==> MayReadLatest(rows, table, routeId, directionId, textLe)
  {
    forall k | 0 <= k < |turns| ensures OfOthers(StoredBy(fraction, turns[k]), routeId, directionId) {
      StoredByOther(fraction, turns[k], routeId, directionId);
    }
    var added := OtherBlocksAddOthers(table, BlocksOf(fraction, turns), 0, |turns|, routeId, directionId);
    OthersUnread(rows, table, added, routeId, directionId, textLe);
  }

  // The overview

  /** What the two queries of the overview may return: each route and direction of the table with its newest rows. */
  ghost predicate MayReadOverview(routeDirs: seq<RouteRows>, table: seq<Row>, textLe: (string, string) -> bool) {
    && (forall k :: 0 <= k < |routeDirs| ==>
          LatestTime(table, routeDirs[k].routeId, routeDirs[k].directionId) == Some(routeDirs[k].time)
          && MayReadLatest(routeDirs[k].rows, table, routeDirs[k].routeId, routeDirs[k].directionId, textLe))
    && (forall j, k :: 0 <= j < k < |routeDirs| ==>
          !(routeDirs[j].routeId == routeDirs[k].routeId && routeDirs[j].directionId == routeDirs[k].directionId))
    && forall r :: r in table ==>
         exists k :: 0 <= k < |routeDirs| && routeDirs[k].routeId == r.routeId && routeDirs[k].directionId == r.directionId
  }

  /** The overview's entry shows this result: same vehicles in the same order, and the same stranded counts. */
  ghost predicate EntryShows(entry: LatestRoute, shown: ApiResult) {
    && entry.strandedAtStops == shown.strandedAtStops
    && |entry.vehiclePredictions| == |shown.vehiclePredictions|
    && forall k :: 0 <= k < |shown.vehiclePredictions| ==>
         AsShown(entry.vehiclePredictions[k]) == shown.vehiclePredictions[k]
  }

  /** After a cycle the overview has exactly one entry for each stored route, and it shows the engine's prediction. */
  lemma OverviewShowsCycle(fraction: real, table: seq<Row>, turns: seq<Turn>, n: nat, textLe: (string, string) -> bool,
                           routeDirs: seq<RouteRows>)
    returns (k: nat)
    requires 0.0 <= fraction <= 1.0 && ProperTurns(turns) && IsCollation(textLe)
    requires n < |turns| && StoredBy(fraction, turns[n]) != []
    requires AllEarlier(table, turns[n].snapshot.value.routeId, turns[n].snapshot.value.directionId, turns[n].now)
    requires MayReadOverview(routeDirs, TableAfter(fraction, table, turns), textLe)
    ensures var s := turns[n].snapshot.value;
            && k < |routeDirs| && EntryShows(RouteOf(routeDirs[k]), Shown(s, fraction, textLe))
            && forall j :: 0 <= j < |routeDirs| && routeDirs[j].routeId == s.routeId && routeDirs[j].directionId == s.directionId
                 <==> j == k
  {
    var s, r := turns[n].snapshot.value, StoredBy(fraction, turns[n])[0];
    StoredAreOwn(fraction, turns[n]);
    BlockIsKept(table, BlocksOf(fraction, turns), n, |turns|, r);
    k :| 0 <= k < |routeDirs| && routeDirs[k].routeId == r.routeId && routeDirs[k].directionId == r.directionId;
    CycleReadBack(fraction, table, turns, n, textLe, routeDirs[k].rows);
    EndpointsAgree(routeDirs[k]);
  }

  /** A vehicle of the overview, field by field: rates to four decimal places, and who waits at each stop. */
  ghost predicate LatestShownAs(shown: LatestVehicle, vp: VehiclePrediction) {
    && shown.vehicleId == vp.vehicleId && shown.routeId == vp.routeId && shown.vehicleCapacity == vp.vehicleCapacity
    && StoredRate(shown.confidence, vp.confidence) && StoredRate(shown.peakOccupancyPct, vp.peakOccupancyPct)
    && |shown.stops| == |vp.stops|
    && forall k :: 0 <= k < |vp.stops| ==> LatestStopShownAs(shown.stops[k], vp.stops[k])
  }

  ghost predicate LatestStopShownAs(shown: LatestStop, sp: StopPrediction) {
    && shown.stopId == sp.stopId && shown.stopSequence == sp.stopSequence
    && shown.predictedPassengers == sp.predictedPassengers
    && shown.boarded == sp.boarded && shown.alighted == sp.alighted && shown.hasData == sp.hasData
    && shown.waitingAtStop == sp.peopleWaitingAtStop
  }

  lemma LatestBlockIsShown(now: int, directionId: int, vp: VehiclePrediction, routeId: string, stops: seq<StopState>)
    requires EntryShape(vp, routeId, stops)
    ensures LatestShownAs(LatestFrom(routeId)(VehicleRows(now, directionId, vp, |vp.stops|)), vp)
  {
    var rows := VehicleRows(now, directionId, vp, |vp.stops|);
    var shown := LatestFrom(routeId)(rows);
    BlockIsShown(now, directionId, vp, routeId, stops);
    Round4IsStoredRate(vp.confidence);
    Round4IsStoredRate(vp.peakOccupancyPct);
    forall k | 0 <= k < |vp.stops| ensures LatestStopShownAs(shown.stops[k], vp.stops[k]) {
      RowOfRecords(now, directionId, vp, vp.stops[k]);
    }
  }

  lemma LatestVehiclesSay(now: int, directionId: int, preds: seq<VehiclePrediction>, stops: seq<StopState>, q: RouteRows)
    requires WellFormed(preds, q.routeId, stops) && q.rows == RowsOf(now, directionId, preds)
    ensures |RouteOf(q).vehiclePredictions| == |preds|
    ensures forall v :: 0 <= v < |preds| ==> LatestShownAs(RouteOf(q).vehiclePredictions[v], preds[v])
  {
    var ids := FirstSeen(q.rows, VehicleKey);
    SeenVehicles(now, directionId, preds);
    ReportedAt(q.rows, VehicleKey, LatestFrom(q.routeId), ids);
    forall v | 0 <= v < |preds| ensures LatestShownAs(RouteOf(q).vehiclePredictions[v], preds[v]) {
      GroupOfVehicle(now, directionId, preds, v);
      assert preds[v] in preds;
      LatestBlockIsShown(now, directionId, preds[v], q.routeId, stops);
    }
  }

  /**
   Field by field: the overview's entry for a stored route has the time of its write, and lists the predicted
   vehicles in the order of their ids.
   */
  lemma OverviewSays(fraction: real, table: seq<Row>, turns: seq<Turn>, n: nat, textLe: (string, string) -> bool,
                     routeDirs: seq<RouteRows>, k: nat)
    returns (sorted: seq<VehiclePrediction>)
    requires 0.0 <= fraction <= 1.0 && ProperTurns(turns) && IsCollation(textLe)
    requires n < |turns| && StoredBy(fraction, turns[n]) != []
    requires AllEarlier(table, turns[n].snapshot.value.routeId, turns[n].snapshot.value.directionId, turns[n].now)
    requires MayReadOverview(routeDirs, TableAfter(fraction, table, turns), textLe)
    requires k < |routeDirs| && routeDirs[k].routeId == turns[n].snapshot.value.routeId
    requires routeDirs[k].directionId == turns[n].snapshot.value.directionId
    ensures multiset(sorted) == multiset(Predict(turns[n].snapshot.value, fraction).vehiclePredictions)
    ensures forall i, j :: 0 <= i < j < |sorted| ==> textLe(sorted[i].vehicleId, sorted[j].vehicleId)
    ensures var entry := RouteOf(routeDirs[k]);
            && entry.routeId == turns[n].snapshot.value.routeId && entry.directionId == turns[n].snapshot.value.directionId
            && entry.time == turns[n].now && |entry.vehiclePredictions| == |sorted|
            && forall v :: 0 <= v < |sorted| ==> LatestShownAs(entry.vehiclePredictions[v], sorted[v])
  {
    var s := turns[n].snapshot.value;
    var preds := Predict(s, fraction).vehiclePredictions;
    sorted := Sort(ById(textLe), preds);
    CycleRows(fraction, table, turns, n, textLe, routeDirs[k].rows);
    ResultIsWellFormed(s, fraction);
    SortedById(preds, textLe);
    SortedWellFormed(preds, sorted, s.routeId, s.stops);
    LatestVehiclesSay(turns[n].now, s.directionId, sorted, s.stops, routeDirs[k]);
  }

  lemma SortedById(preds: seq<VehiclePrediction>, textLe: (string, string) -> bool)
    requires IsCollation(textLe)
    ensures var sorted := Sort(ById(textLe), preds);
            && multiset(sorted) == multiset(preds)
            && forall i, j :: 0 <= i < j < |sorted| ==> textLe(sorted[i].vehicleId, sorted[j].vehicleId)
  {
    var sorted := Sort(ById(textLe), preds);
    SortPermutes(ById(textLe), preds);
    ByIdIsPreorder(textLe);
    SortSorted(ById(textLe), preds);
    forall i, j | 0 <= i < j < |sorted| ensures textLe(sorted[i].vehicleId, sorted[j].vehicleId) {
      assert ById(textLe)(sorted[i], sorted[j]);
    }
  }

  lemma SortedWellFormed(preds: seq<VehiclePrediction>, sorted: seq<VehiclePrediction>, routeId: string, stops: seq<StopState>)
    requires WellFormed(preds, routeId, stops) && multiset(sorted) == multiset(preds)
    ensures WellFormed(sorted, routeId, stops)
  {
    SameMembers(preds, sorted);
    DistinctEntriesPermute(preds, sorted);
  }
}
