/** The stop list and the stranded counts that the reader rebuilds are the engine's. */
module ReadBackStops {
  import opened Prelude
  import opened Ordering
  import opened Snapshots
  import opened Simulation
  import opened PredictionTable
  import opened Laws
  import opened Stranded
  import opened Queries
  import opened ReadBack
  import Relief

  // Who boarded

  lemma {:induction false} BoardedFromAppend(a: seq<Row>, b: seq<Row>)
    ensures BoardedFrom(a + b) == BoardedFrom(a) + BoardedFrom(b)
  {
    if b == [] {
      assert a + b == a;
    } else {
      assert (a + b)[..|a + b| - 1] == a + b[..|b| - 1];
      BoardedFromAppend(a, b[..|b| - 1]);
    }
  }

  lemma {:induction false} BoardedInOneMore(preds: seq<StopPrediction>, sp: StopPrediction, stopId: string)
    ensures BoardedIn(preds + [sp], stopId)
            == BoardedIn(preds, stopId) + if sp.stopId == stopId then sp.boarded else 0
  {
    if preds == [] {
      assert preds + [sp] == [sp];
    } else {
      DropFirstOfAppend(preds, [sp]);
      BoardedInOneMore(preds[1..], sp, stopId);
    }
  }

  lemma BoardedOfOneMore(rows: seq<Row>, r: Row, preds: seq<StopPrediction>, sp: StopPrediction, stopId: string)
    requires r.stopId == sp.stopId && r.boarded == sp.boarded
    requires BoardedFrom(Group(rows, StopKey, stopId)) == BoardedIn(preds, stopId)
    ensures BoardedFrom(Group(rows + [r], StopKey, stopId)) == BoardedIn(preds + [sp], stopId)
  {
    GroupOfOneMore(rows, r, StopKey, stopId);
    ReportsOfOneMore(Group(rows, StopKey, stopId), r);
    BoardedInOneMore(preds, sp, stopId);
  }

  lemma {:induction false} BoardedOfBlock(now: int, directionId: int, vp: VehiclePrediction, n: nat, stopId: string)
    requires n <= |vp.stops|
    ensures BoardedFrom(Group(VehicleRows(now, directionId, vp, n), StopKey, stopId)) == BoardedIn(vp.stops[..n], stopId)
  {
    if n > 0 {
      BoardedOfBlock(now, directionId, vp, n - 1, stopId);
      BoardedOfOneMore(VehicleRows(now, directionId, vp, n - 1), RowOf(now, directionId, vp, vp.stops[n - 1]),
                       vp.stops[..n - 1], vp.stops[n - 1], stopId);
      TakeOneMore(vp.stops, n - 1);
    }
  }

  lemma BoardedOfBoth(a: seq<Row>, b: seq<Row>, stopId: string)
    ensures BoardedFrom(Group(a + b, StopKey, stopId))
            == BoardedFrom(Group(a, StopKey, stopId)) + BoardedFrom(Group(b, StopKey, stopId))
  {
    GroupAppend(a, b, StopKey, stopId);
    BoardedFromAppend(Group(a, StopKey, stopId), Group(b, StopKey, stopId));
  }

  lemma BoardedAtOneMore(preds: seq<VehiclePrediction>, stopId: string)
    requires preds != []
    ensures BoardedAt(preds, stopId)
            == BoardedAt(preds[..|preds| - 1], stopId) + BoardedIn(preds[|preds| - 1].stops, stopId)
  {
    assert preds == preds[..|preds| - 1] + [preds[|preds| - 1]];
    BoardedAtAppend(preds[..|preds| - 1], [preds[|preds| - 1]], stopId);
  }

  lemma {:induction false} BoardedOfRows(now: int, directionId: int, preds: seq<VehiclePrediction>, stopId: string)
    ensures BoardedFrom(Group(RowsOf(now, directionId, preds), StopKey, stopId)) == BoardedAt(preds, stopId)
  {
    if preds != [] {
      var last := preds[|preds| - 1];
      BoardedOfRows(now, directionId, preds[..|preds| - 1], stopId);
      BoardedOfBlock(now, directionId, last, |last.stops|, stopId);
      FullSlices(last.stops);
      BoardedOfBoth(RowsOf(now, directionId, preds[..|preds| - 1]),
                    VehicleRows(now, directionId, last, |last.stops|), stopId);
      BoardedAtOneMore(preds, stopId);
    }
  }

  lemma {:induction false} BoardedAtInsert(le: (VehiclePrediction, VehiclePrediction) -> bool, vp: VehiclePrediction,
                                           preds: seq<VehiclePrediction>, stopId: string)
    ensures BoardedAt(Insert(le, vp, preds), stopId) == BoardedIn(vp.stops, stopId) + BoardedAt(preds, stopId)
  {
    if preds == [] || le(vp, preds[0]) {
      BoardedAtAppend([vp], preds, stopId);
    } else {
      BoardedAtInsert(le, vp, preds[1..], stopId);
      BoardedAtAppend([preds[0]], Insert(le, vp, preds[1..]), stopId);
    }
  }

  lemma {:induction false} BoardedAtSorted(le: (VehiclePrediction, VehiclePrediction) -> bool,
                                           preds: seq<VehiclePrediction>, stopId: string)
    ensures BoardedAt(Sort(le, preds), stopId) == BoardedAt(preds, stopId)
  {
    if preds != [] {
      BoardedAtSorted(le, preds[1..], stopId);
      BoardedAtInsert(le, preds[0], Sort(le, preds[1..]), stopId);
    }
  }

  // Which stops, and what was recorded there

  lemma {:induction false} GroupMember(rows: seq<Row>, key: Key, id: string, r: Row)
    ensures r in Group(rows, key, id) <==> r in rows && key(r) == id
  {
    if rows != [] {
      GroupMember(rows[..|rows| - 1], key, id, r);
      assert rows == rows[..|rows| - 1] + [rows[|rows| - 1]];
    }
  }

  lemma {:induction false} StopsHaveRows(now: int, directionId: int, preds: seq<VehiclePrediction>, v: nat, k: nat)
    requires v < |preds| && k < |preds[v].stops|
    ensures RowOf(now, directionId, preds[v], preds[v].stops[k]) in RowsOf(now, directionId, preds)
  {
    var last := preds[|preds| - 1];
    var block := VehicleRows(now, directionId, last, |last.stops|);
    if v == |preds| - 1 {
      assert block[k] in block;
    } else {
      StopsHaveRows(now, directionId, preds[..|preds| - 1], v, k);
    }
  }

  /** The recorded row of a visited stop repeats what the snapshot said about it. */
  ghost predicate RecordsStop(r: Row, stop: StopState) {
    r.stopId == stop.stopId && r.stopSequence == stop.sequence && r.waitingAtStop == stop.peopleWaiting
  }

  lemma StopRecordsStop(now: int, directionId: int, vp: VehiclePrediction, routeId: string, stops: seq<StopState>, k: nat)
    returns (i: nat)
    requires EntryShape(vp, routeId, stops) && k < |vp.stops|
    ensures i < |stops| && RecordsStop(RowOf(now, directionId, vp, vp.stops[k]), stops[i])
  {
    var start: nat :| CoversRoute(vp.stops, stops, start);
    i := start + k;
  }

  lemma RowsRecordStops(now: int, directionId: int, preds: seq<VehiclePrediction>, routeId: string,
                        stops: seq<StopState>, r: Row)
    returns (i: nat)
    requires WellFormed(preds, routeId, stops) && r in RowsOf(now, directionId, preds)
    ensures i < |stops| && RecordsStop(r, stops[i])
    ensures Visited(preds, r.stopId)
  {
    RowsComeFromStops(now, directionId, preds, r);
    var v, k :| 0 <= v < |preds| && 0 <= k < |preds[v].stops| && r == RowOf(now, directionId, preds[v], preds[v].stops[k]);
    assert preds[v] in preds;
    i := StopRecordsStop(now, directionId, preds[v], routeId, stops, k);
    assert Visits(preds[v], r.stopId);
  }

  /** The group of a stop is non-empty exactly when some vehicle visits it, and then reports the stop. */
  lemma StopGroup(now: int, directionId: int, preds: seq<VehiclePrediction>, routeId: string, stops: seq<StopState>, i: nat)
    requires WellFormed(preds, routeId, stops) && DistinctStopIds(stops) && i < |stops|
    ensures var group := Group(RowsOf(now, directionId, preds), StopKey, stops[i].stopId);
            && (group != [] <==> Visited(preds, stops[i].stopId))
            && (group != [] ==> RecordsStop(group[0], stops[i]))
  {
    var rows, id := RowsOf(now, directionId, preds), stops[i].stopId;
    var group := Group(rows, StopKey, id);
    if group != [] {
      GroupMember(rows, StopKey, id, group[0]);
      var j := RowsRecordStops(now, directionId, preds, routeId, stops, group[0]);
      assert j == i;
    }
    if Visited(preds, id) {
      var v :| 0 <= v < |preds| && Visits(preds[v], id);
      var k :| 0 <= k < |preds[v].stops| && preds[v].stops[k].stopId == id;
      StopsHaveRows(now, directionId, preds, v, k);
      GroupMember(rows, StopKey, id, RowOf(now, directionId, preds[v], preds[v].stops[k]));
    }
  }

  // Stranded counts

  function OnlyVisited(stranded: map<string, int>, preds: seq<VehiclePrediction>): map<string, int> {
    map id | id in stranded && Visited(preds, id) :: stranded[id]
  }

  /** Counts rebuilt from the rows equal the engine's, at the stops that some vehicle visited. */
  lemma StrandedReadBack(now: int, directionId: int, preds: seq<VehiclePrediction>, routeId: string,
                         stops: seq<StopState>, stranded: map<string, int>)
    requires WellFormed(preds, routeId, stops) && DistinctStopIds(stops)
    requires forall i :: 0 <= i < |stops| ==>
      BoardedAt(preds, stops[i].stopId) + Lookup(stranded, stops[i].stopId) == Waiting(stops[i])
    requires forall id :: id in stranded ==> stranded[id] > 0 && KnownStop(id, stops)
    ensures StrandedIn(RowsOf(now, directionId, preds)) == OnlyVisited(stranded, preds)
  {
    var rows := RowsOf(now, directionId, preds);
    var rebuilt, expected := StrandedIn(rows), OnlyVisited(stranded, preds);
    forall id
      ensures (id in rebuilt <==> id in expected) && (id in rebuilt ==> rebuilt[id] == expected[id])
    {
      SeenIffGrouped(rows, StopKey, id);
      BoardedOfRows(now, directionId, preds, id);
      if KnownStop(id, stops) {
        var i :| 0 <= i < |stops| && stops[i].stopId == id;
        StopGroup(now, directionId, preds, routeId, stops, i);
      } else if Group(rows, StopKey, id) != [] {
        GroupMember(rows, StopKey, id, Group(rows, StopKey, id)[0]);
        var i := RowsRecordStops(now, directionId, preds, routeId, stops, Group(rows, StopKey, id)[0]);
        assert KnownStop(id, stops);
      }
    }
  }

  // The stop list

  lemma {:induction false} SeenOnce(rows: seq<Row>, key: Key)
    ensures NoDuplicates(FirstSeen(rows, key))
  {
    if rows != [] {
      SeenOnce(rows[..|rows| - 1], key);
    }
  }

  lemma {:induction false} ReportedAt<V>(rows: seq<Row>, key: Key, report: seq<Row> -> V, ids: seq<string>)
    ensures |Reported(rows, key, report, ids)| == |ids|
    ensures forall n :: 0 <= n < |ids| ==> Reported(rows, key, report, ids)[n] == report(Group(rows, key, ids[n]))
  {
    if ids != [] {
      ReportedAt(rows, key, report, ids[..|ids| - 1]);
    }
  }

  function InfoOf(stop: StopState): ApiStopInfo {
    ApiStopInfo(stop.stopId, stop.sequence, stop.peopleWaiting)
  }

  /** The info of some visited stop of the route. */
  ghost predicate IsVisitedInfo(info: ApiStopInfo, stops: seq<StopState>, preds: seq<VehiclePrediction>) {
    exists i :: 0 <= i < |stops| && info == InfoOf(stops[i]) && Visited(preds, stops[i].stopId)
  }

  /** One more stop adds itself to the visited ones, if it is visited. */
  lemma VisitedInfoOneMore(stops: seq<StopState>, preds: seq<VehiclePrediction>, info: ApiStopInfo)
    requires stops != []
    ensures var last := stops[|stops| - 1];
            IsVisitedInfo(info, stops, preds)
            <==> IsVisitedInfo(info, stops[..|stops| - 1], preds) || (info == InfoOf(last) && Visited(preds, last.stopId))
  {
    var fewer, last := stops[..|stops| - 1], stops[|stops| - 1];
    if IsVisitedInfo(info, fewer, preds) {
      var i :| 0 <= i < |fewer| && info == InfoOf(fewer[i]) && Visited(preds, fewer[i].stopId);
      assert stops[i] == fewer[i];
    }
    if IsVisitedInfo(info, stops, preds) {
      var i :| 0 <= i < |stops| && info == InfoOf(stops[i]) && Visited(preds, stops[i].stopId);
      assert i < |fewer| ==> fewer[i] == stops[i];
    }
  }

  lemma {:induction false} VisitedInfosMembers(stops: seq<StopState>, preds: seq<VehiclePrediction>, info: ApiStopInfo)
    ensures info in VisitedInfos(stops, preds) <==> IsVisitedInfo(info, stops, preds)
  {
    if stops != [] {
      VisitedInfosMembers(stops[..|stops| - 1], preds, info);
      VisitedInfoOneMore(stops, preds, info);
    }
  }

  ghost predicate IncreasingInfos(infos: seq<ApiStopInfo>) {
    forall i, j :: 0 <= i < j < |infos| ==> infos[i].stopSequence < infos[j].stopSequence
  }

  lemma VisitedInfoBefore(stops: seq<StopState>, preds: seq<VehiclePrediction>, info: ApiStopInfo, last: StopState)
    requires IncreasingSequences(stops + [last]) && info in VisitedInfos(stops, preds)
    ensures info.stopSequence < last.sequence
  {
    VisitedInfosMembers(stops, preds, info);
    var k :| 0 <= k < |stops| && info == InfoOf(stops[k]) && Visited(preds, stops[k].stopId);
    assert (stops + [last])[k] == stops[k] && (stops + [last])[|stops|] == last;
  }

  lemma {:induction false} VisitedInfosIncrease(stops: seq<StopState>, preds: seq<VehiclePrediction>)
    requires IncreasingSequences(stops)
    ensures IncreasingInfos(VisitedInfos(stops, preds))
  {
    if stops != [] {
      var fewer, last := stops[..|stops| - 1], stops[|stops| - 1];
      assert stops == fewer + [last];
      VisitedInfosIncrease(fewer, preds);
      forall info | info in VisitedInfos(fewer, preds) ensures info.stopSequence < last.sequence {
        VisitedInfoBefore(fewer, preds, info, last);
      }
    }
  }

  /** Every id first seen belongs to exactly one visited stop, whose info is reported. */
  lemma SeenStop(now: int, directionId: int, preds: seq<VehiclePrediction>, routeId: string, stops: seq<StopState>, id: string)
    returns (i: nat)
    requires WellFormed(preds, routeId, stops) && DistinctStopIds(stops)
    requires id in FirstSeen(RowsOf(now, directionId, preds), StopKey)
    ensures i < |stops| && stops[i].stopId == id && Visited(preds, id)
    ensures InfoFrom(Group(RowsOf(now, directionId, preds), StopKey, id)) == InfoOf(stops[i])
  {
    var rows := RowsOf(now, directionId, preds);
    SeenIffGrouped(rows, StopKey, id);
    var r := Group(rows, StopKey, id)[0];
    GroupMember(rows, StopKey, id, r);
    i := RowsRecordStops(now, directionId, preds, routeId, stops, r);
  }

  lemma ReportedInfosMembers(now: int, directionId: int, preds: seq<VehiclePrediction>, routeId: string, stops: seq<StopState>)
    requires WellFormed(preds, routeId, stops) && DistinctStopIds(stops)
    ensures var rows := RowsOf(now, directionId, preds);
            var infos := Reported(rows, StopKey, InfoFrom, FirstSeen(rows, StopKey));
            NoDuplicates(infos) && forall info :: info in infos <==> IsVisitedInfo(info, stops, preds)
  {
    var rows := RowsOf(now, directionId, preds);
    var ids := FirstSeen(rows, StopKey);
    var infos := Reported(rows, StopKey, InfoFrom, ids);
    ReportedAt(rows, StopKey, InfoFrom, ids);
    SeenOnce(rows, StopKey);
    forall n | 0 <= n < |ids| ensures infos[n].stopId == ids[n] && IsVisitedInfo(infos[n], stops, preds) {
      var i := SeenStop(now, directionId, preds, routeId, stops, ids[n]);
    }
    forall info | IsVisitedInfo(info, stops, preds) ensures info in infos {
      var i :| 0 <= i < |stops| && info == InfoOf(stops[i]) && Visited(preds, stops[i].stopId);
      StopGroup(now, directionId, preds, routeId, stops, i);
      SeenIffGrouped(rows, StopKey, stops[i].stopId);
      var n :| 0 <= n < |ids| && ids[n] == stops[i].stopId;
      assert infos[n] == info;
    }
  }

  lemma IncreasingInfosSorted(infos: seq<ApiStopInfo>)
    requires IncreasingInfos(infos)
    ensures NoDuplicates(infos) && SortedBy(BySequence, infos) && Separates(BySequence, infos)
  {
  }

  lemma SortedInfosUnique(infos: seq<ApiStopInfo>, expected: seq<ApiStopInfo>)
    requires NoDuplicates(infos) && forall info :: info in infos <==> info in expected
    requires IncreasingInfos(expected)
    ensures Sort(BySequence, infos) == expected
  {
    IncreasingInfosSorted(expected);
    SameMembersSameMultiset(infos, expected);
    SortPermutes(BySequence, infos);
    SortSorted(BySequence, infos);
    SortedPermutationUnique(BySequence, expected, Sort(BySequence, infos));
  }

  lemma StopsReadBack(now: int, directionId: int, preds: seq<VehiclePrediction>, routeId: string, stops: seq<StopState>)
    requires WellFormed(preds, routeId, stops) && DistinctStopIds(stops) && IncreasingSequences(stops)
    ensures Regroup(RowsOf(now, directionId, preds)).stops == VisitedInfos(stops, preds)
  {
    var rows := RowsOf(now, directionId, preds);
    var infos := Reported(rows, StopKey, InfoFrom, FirstSeen(rows, StopKey));
    ReportedInfosMembers(now, directionId, preds, routeId, stops);
    forall info ensures info in infos <==> info in VisitedInfos(stops, preds) {
      VisitedInfosMembers(stops, preds, info);
    }
    VisitedInfosIncrease(stops, preds);
    SortedInfosUnique(infos, VisitedInfos(stops, preds));
  }

  // The round trip

  lemma {:induction false} VisitedPermutes(preds: seq<VehiclePrediction>, permuted: seq<VehiclePrediction>, id: string)
    requires multiset(preds) == multiset(permuted)
    ensures Visited(preds, id) <==> Visited(permuted, id)
  {
    SameMembers(preds, permuted);
    if Visited(preds, id) {
      var v :| 0 <= v < |preds| && Visits(preds[v], id);
      assert preds[v] in permuted;
    }
    if Visited(permuted, id) {
      var v :| 0 <= v < |permuted| && Visits(permuted[v], id);
      assert permuted[v] in preds;
    }
  }

  lemma {:induction false} VisitedInfosPermute(stops: seq<StopState>, preds: seq<VehiclePrediction>, permuted: seq<VehiclePrediction>)
    requires multiset(preds) == multiset(permuted)
    ensures VisitedInfos(stops, preds) == VisitedInfos(stops, permuted)
  {
    if stops != [] {
      VisitedInfosPermute(stops[..|stops| - 1], preds, permuted);
      VisitedPermutes(preds, permuted, stops[|stops| - 1].stopId);
    }
  }

  lemma RowsAreTagged(now: int, directionId: int, preds: seq<VehiclePrediction>, routeId: string, stops: seq<StopState>)
    requires WellFormed(preds, routeId, stops)
    ensures forall r :: r in RowsOf(now, directionId, preds) ==>
              r.routeId == routeId && r.directionId == directionId && r.time == now
    ensures preds != [] ==> RowsOf(now, directionId, preds) != []
  {
    var rows := RowsOf(now, directionId, preds);
    forall r | r in rows ensures r.routeId == routeId && r.directionId == directionId && r.time == now {
      RowsComeFromStops(now, directionId, preds, r);
      var v, k :| 0 <= v < |preds| && 0 <= k < |preds[v].stops| && r == RowOf(now, directionId, preds[v], preds[v].stops[k]);
      assert preds[v] in preds;
    }
    if preds != [] {
      assert preds[0] in preds;
      StopsHaveRows(now, directionId, preds, 0, 0);
    }
  }

  /** What the route tables and the snapshot builder guarantee of a snapshot. */
  ghost predicate Storable(snapshot: RouteSnapshot) {
    && DistinctStopIds(snapshot.stops) && IncreasingSequences(snapshot.stops) && NonNegativeWaiting(snapshot.stops)
    && DistinctVehicleIds(snapshot.vehicles)
    && forall v :: v in snapshot.vehicles ==> v.routeId == snapshot.routeId
  }

  /** Nothing for this route was written at or after now. */
  ghost predicate AllEarlier(table: seq<Row>, routeId: string, directionId: int, now: int) {
    forall r :: r in table && r.routeId == routeId && r.directionId == directionId ==> r.time < now
  }

  /** rows is what the reader may be given when it asks for the route's latest prediction. */
  ghost predicate MayReadLatest(rows: seq<Row>, table: seq<Row>, routeId: string, directionId: int,
                                textLe: (string, string) -> bool) {
    var latest := LatestTime(table, routeId, directionId);
    latest.Some? && IsOrderedSelection(rows, table, routeId, directionId, latest.value, textLe)
  }

  lemma LatestIsWhatWasWritten(snapshot: RouteSnapshot, preds: seq<VehiclePrediction>, table: seq<Row>, now: int,
                               textLe: (string, string) -> bool, rows: seq<Row>)
    requires WellFormed(preds, snapshot.routeId, snapshot.stops) && IncreasingSequences(snapshot.stops)
    requires IsCollation(textLe) && preds != []
    requires AllEarlier(table, snapshot.routeId, snapshot.directionId, now)
    requires MayReadLatest(rows, table + RowsOf(now, snapshot.directionId, preds), snapshot.routeId, snapshot.directionId, textLe)
    ensures rows == RowsOf(now, snapshot.directionId, Sort(ById(textLe), preds))
  {
    RowsAreTagged(now, snapshot.directionId, preds, snapshot.routeId, snapshot.stops);
    SelectEverythingNew(table, RowsOf(now, snapshot.directionId, preds), snapshot.routeId, snapshot.directionId, now);
    SelectionIsCanonical(now, snapshot.directionId, preds, snapshot.routeId, snapshot.stops, textLe, rows);
  }

  /** Nothing in these rows is of this route and direction. */
  ghost predicate OfOthers(rows: seq<Row>, routeId: string, directionId: int) {
    forall r :: r in rows ==> !(r.routeId == routeId && r.directionId == directionId)
  }

  lemma {:induction false} OthersIgnored(table: seq<Row>, later: seq<Row>, routeId: string, directionId: int, time: int)
    requires OfOthers(later, routeId, directionId)
    ensures SelectRows(table + later, routeId, directionId, time) == SelectRows(table, routeId, directionId, time)
    ensures LatestTime(table + later, routeId, directionId) == LatestTime(table, routeId, directionId)
  {
    if later == [] {
      assert table + later == table;
    } else {
      DropLastOfAppend(table, later);
      assert later[|later| - 1] in later;
      OthersIgnored(table, later[..|later| - 1], routeId, directionId, time);
    }
  }

  /** Rows of other routes make no difference to what the reader may be given. */
  lemma OthersUnread(rows: seq<Row>, table: seq<Row>, later: seq<Row>, routeId: string, directionId: int,
                     textLe: (string, string) -> bool)
    requires OfOthers(later, routeId, directionId)
    ensures MayReadLatest(rows, table + later, routeId, directionId, textLe)
            <==> MayReadLatest(rows, table, routeId, directionId, textLe)
  {
    OthersIgnored(table, later, routeId, directionId, LatestTime(table, routeId, directionId).GetOr(0));
  }

  lemma StrandedOfResult(snapshot: RouteSnapshot, fraction: real, now: int, sorted: seq<VehiclePrediction>)
    requires Storable(snapshot) && |snapshot.stops| > 1
    requires WellFormed(sorted, snapshot.routeId, snapshot.stops)
    requires forall id :: BoardedAt(sorted, id) == BoardedAt(Predict(snapshot, fraction).vehiclePredictions, id)
    ensures StrandedIn(RowsOf(now, snapshot.directionId, sorted))
            == OnlyVisited(Predict(snapshot, fraction).strandedAtStops, sorted)
  {
    var result, stops := Predict(snapshot, fraction), snapshot.stops;
    PassengersConserved(snapshot, fraction);
    forall i | 0 <= i < |stops|
      ensures BoardedAt(sorted, stops[i].stopId) + Lookup(result.strandedAtStops, stops[i].stopId) == Waiting(stops[i])
    {
      assert BalancedAt(snapshot, result, i);
    }
    StrandedArePositive(stops, LeftOver(snapshot, fraction), |stops|);
    StrandedReadBack(now, snapshot.directionId, sorted, snapshot.routeId, stops, result.strandedAtStops);
  }

  lemma OnlyVisitedPermutes(stranded: map<string, int>, preds: seq<VehiclePrediction>, permuted: seq<VehiclePrediction>)
    requires multiset(preds) == multiset(permuted)
    ensures OnlyVisited(stranded, preds) == OnlyVisited(stranded, permuted)
  {
    forall id ensures Visited(preds, id) <==> Visited(permuted, id) {
      VisitedPermutes(preds, permuted, id);
    }
  }

  /**
   A prediction that is written and then read back, after any rows of other routes have followed it and
   through whatever order the database's collation and ties allow, shows the engine's vehicles by id with
   the same stop lists and the peak and confidence rounded as stored, the visited stops in route order, and the engine's stranded counts at them.
   */
  lemma WrittenThenReadBack(snapshot: RouteSnapshot, fraction: real, table: seq<Row>, now: int, later: seq<Row>,
                            textLe: (string, string) -> bool, rows: seq<Row>)
    requires 0.0 <= fraction <= 1.0 && Storable(snapshot) && IsCollation(textLe)
    requires Predict(snapshot, fraction).vehiclePredictions != []
    requires AllEarlier(table, snapshot.routeId, snapshot.directionId, now)
    requires OfOthers(later, snapshot.routeId, snapshot.directionId)
    requires var written := RowsOf(now, snapshot.directionId, Predict(snapshot, fraction).vehiclePredictions);
             MayReadLatest(rows, table + written + later, snapshot.routeId, snapshot.directionId, textLe)
    ensures var result := Predict(snapshot, fraction);
            Regroup(rows) == ApiResult(ShownVehicles(Sort(ById(textLe), result.vehiclePredictions)),
                                       VisitedInfos(snapshot.stops, result.vehiclePredictions),
                                       OnlyVisited(result.strandedAtStops, result.vehiclePredictions))
  {
    var preds := Predict(snapshot, fraction).vehiclePredictions;
    var sorted := Sort(ById(textLe), preds);
    ResultIsWellFormed(snapshot, fraction);
    OthersUnread(rows, table + RowsOf(now, snapshot.directionId, preds), later, snapshot.routeId, snapshot.directionId, textLe);
    LatestIsWhatWasWritten(snapshot, preds, table, now, textLe, rows);
    SortPermutes(ById(textLe), preds);
    SameMembers(preds, sorted);
    DistinctEntriesPermute(preds, sorted);
    forall id ensures BoardedAt(sorted, id) == BoardedAt(preds, id) {
      BoardedAtSorted(ById(textLe), preds, id);
    }
    VehiclesReadBack(now, snapshot.directionId, sorted, snapshot.routeId, snapshot.stops);
    StopsReadBack(now, snapshot.directionId, sorted, snapshot.routeId, snapshot.stops);
    StrandedOfResult(snapshot, fraction, now, sorted);
    VisitedInfosPermute(snapshot.stops, sorted, preds);
    OnlyVisitedPermutes(Predict(snapshot, fraction).strandedAtStops, sorted, preds);
  }

  /**
   Field by field: the vehicles read back are the predicted ones in the order of their ids, each with its own
   stops, and with peak and confidence to the nearest of four decimal places.
   */
  lemma ReadBackVehicles(snapshot: RouteSnapshot, fraction: real, table: seq<Row>, now: int, later: seq<Row>,
                         textLe: (string, string) -> bool, rows: seq<Row>)
    returns (sorted: seq<VehiclePrediction>)
    requires 0.0 <= fraction <= 1.0 && Storable(snapshot) && IsCollation(textLe)
    requires Predict(snapshot, fraction).vehiclePredictions != []
    requires AllEarlier(table, snapshot.routeId, snapshot.directionId, now)
    requires OfOthers(later, snapshot.routeId, snapshot.directionId)
    requires var written := RowsOf(now, snapshot.directionId, Predict(snapshot, fraction).vehiclePredictions);
             MayReadLatest(rows, table + written + later, snapshot.routeId, snapshot.directionId, textLe)
    ensures multiset(sorted) == multiset(Predict(snapshot, fraction).vehiclePredictions)
    ensures forall i, j :: 0 <= i < j < |sorted| ==> textLe(sorted[i].vehicleId, sorted[j].vehicleId)
    ensures var shown := Regroup(rows).vehiclePredictions;
            |shown| == |sorted| && forall v :: 0 <= v < |sorted| ==> ShownAs(shown[v], sorted[v])
  {
    var preds := Predict(snapshot, fraction).vehiclePredictions;
    sorted := Sort(ById(textLe), preds);
    WrittenThenReadBack(snapshot, fraction, table, now, later, textLe, rows);
    SortPermutes(ById(textLe), preds);
    ByIdIsPreorder(textLe);
    SortSorted(ById(textLe), preds);
    forall i, j | 0 <= i < j < |sorted| ensures textLe(sorted[i].vehicleId, sorted[j].vehicleId) {
      assert ById(textLe)(sorted[i], sorted[j]);
    }
    ShownVehiclesSay(sorted);
  }

  /**
   Stop by stop: what is read back about a stop is its number and what the snapshot knew of the people waiting
   there, the stops come in route order, and every stop at which a predicted vehicle calls is among them.
   */
  lemma ReadBackStopList(stops: seq<StopState>, preds: seq<VehiclePrediction>)
    requires IncreasingSequences(stops)
    ensures var infos := VisitedInfos(stops, preds);
            && (forall k :: 0 <= k < |infos| ==> exists i :: 0 <= i < |stops| && SaysOf(infos[k], stops[i]))
            && (forall j, k :: 0 <= j < k < |infos| ==> infos[j].stopSequence < infos[k].stopSequence)
            && forall i, v, n :: 0 <= i < |stops| && 0 <= v < |preds| && 0 <= n < |preds[v].stops|
                                 && preds[v].stops[n].stopId == stops[i].stopId
                 ==> exists k :: 0 <= k < |infos| && SaysOf(infos[k], stops[i])
  {
    var infos := VisitedInfos(stops, preds);
    VisitedInfosIncrease(stops, preds);
    forall k | 0 <= k < |infos| ensures exists i :: 0 <= i < |stops| && SaysOf(infos[k], stops[i]) {
      VisitedInfosMembers(stops, preds, infos[k]);
    }
    forall i, v, n | 0 <= i < |stops| && 0 <= v < |preds| && 0 <= n < |preds[v].stops|
                     && preds[v].stops[n].stopId == stops[i].stopId
      ensures exists k :: 0 <= k < |infos| && SaysOf(infos[k], stops[i])
    {
      var info := ApiStopInfo(stops[i].stopId, stops[i].sequence, stops[i].peopleWaiting);
      assert Visits(preds[v], stops[i].stopId);
      VisitedInfosMembers(stops, preds, info);
      assert info in infos;
      var k :| 0 <= k < |infos| && infos[k] == info;
      assert SaysOf(infos[k], stops[i]);
    }
  }

  ghost predicate SaysOf(info: ApiStopInfo, stop: StopState) {
    info.stopId == stop.stopId && info.stopSequence == stop.sequence && info.peopleWaiting == stop.peopleWaiting
  }

  // What the reader cannot show

  lemma {:induction false} NobodyBoardsUnvisited(preds: seq<VehiclePrediction>, id: string)
    requires !Visited(preds, id)
    ensures BoardedAt(preds, id) == 0
  {
    if preds != [] {
      var fewer, last := preds[..|preds| - 1], preds[|preds| - 1];
      forall v | 0 <= v < |preds| ensures !Visits(preds[v], id) {
      }
      NobodyBoardsUnvisited(fewer, id);
      NobodyBoardsAt(last.stops, id);
      BoardedAtOneMore(preds, id);
    }
  }

  lemma {:induction false} NobodyBoardsAt(stops: seq<StopPrediction>, id: string)
    requires forall k :: 0 <= k < |stops| ==> stops[k].stopId != id
    ensures BoardedIn(stops, id) == 0
  {
    if stops != [] {
      NobodyBoardsAt(stops[1..], id);
    }
  }

  lemma TerminusNotVisited(preds: seq<VehiclePrediction>, routeId: string, stops: seq<StopState>)
    requires WellFormed(preds, routeId, stops) && DistinctStopIds(stops) && stops != []
    ensures !Visited(preds, stops[|stops| - 1].stopId)
  {
    var id := stops[|stops| - 1].stopId;
    forall v | 0 <= v < |preds| ensures !Visits(preds[v], id) {
      assert preds[v] in preds;
      var start: nat :| CoversRoute(preds[v].stops, stops, start);
      forall k | 0 <= k < |preds[v].stops| ensures preds[v].stops[k].stopId != id {
        assert stops[start + k].stopId != id;
      }
    }
  }

  /** Everyone waiting at the terminus counts as stranded, but no vehicle has a row there for the reader. */
  lemma TerminusStrandedUnseen(snapshot: RouteSnapshot, fraction: real)
    requires 0.0 <= fraction <= 1.0 && Storable(snapshot) && |snapshot.stops| > 1
    ensures var result, terminus := Predict(snapshot, fraction), snapshot.stops[|snapshot.stops| - 1];
            && StrandedAt(result, terminus.stopId) == Waiting(terminus)
            && terminus.stopId !in OnlyVisited(result.strandedAtStops, result.vehiclePredictions)
  {
    ResultIsWellFormed(snapshot, fraction);
    TerminusNotVisited(Predict(snapshot, fraction).vehiclePredictions, snapshot.routeId, snapshot.stops);
    UnvisitedAllStranded(snapshot, fraction, |snapshot.stops| - 1);
  }

  /** Everyone at a stop where no vehicle calls is stranded. */
  lemma UnvisitedAllStranded(snapshot: RouteSnapshot, fraction: real, i: nat)
    requires Storable(snapshot) && |snapshot.stops| > 1 && i < |snapshot.stops|
    requires !Visited(Predict(snapshot, fraction).vehiclePredictions, snapshot.stops[i].stopId)
    ensures StrandedAt(Predict(snapshot, fraction), snapshot.stops[i].stopId) == Waiting(snapshot.stops[i])
  {
    NobodyBoardsUnvisited(Predict(snapshot, fraction).vehiclePredictions, snapshot.stops[i].stopId);
    PassengersConserved(snapshot, fraction);
    assert BalancedAt(snapshot, Predict(snapshot, fraction), i);
  }

  lemma WhollyShownIfVisited(stranded: map<string, int>, preds: seq<VehiclePrediction>)
    ensures OnlyVisited(stranded, preds) == stranded <==> forall id :: id in stranded ==> Visited(preds, id)
  {
    if OnlyVisited(stranded, preds) == stranded {
      forall id | id in stranded ensures Visited(preds, id) {
        assert id in OnlyVisited(stranded, preds);
      }
    }
  }

  /** Stop i lies before the terminus, and some vehicle joins the simulation at or before it. */
  ghost predicate Reached(snapshot: RouteSnapshot, i: nat) {
    i + 1 < |snapshot.stops| && exists v :: v in snapshot.vehicles && JoinsBy(snapshot.stops, v, i)
  }

  ghost predicate JoinsBy(stops: seq<StopState>, v: VehicleSnapshot, i: nat) {
    Joins(stops, v) && StopIndex(stops, v.currentStopSequence).value <= i
  }

  /** A vehicle's entry visits stop i exactly when the vehicle joins by then and the terminus is still ahead. */
  lemma EntryVisits(vp: VehiclePrediction, v: VehicleSnapshot, stops: seq<StopState>, i: nat)
    requires IsEntryFor(vp, v, stops) && DistinctStopIds(stops) && i < |stops|
    ensures Visits(vp, stops[i].stopId) <==> i + 1 < |stops| && JoinsBy(stops, v, i)
  {
    var start := StopIndex(stops, v.currentStopSequence).value;
    if Visits(vp, stops[i].stopId) {
      var k :| 0 <= k < |vp.stops| && vp.stops[k].stopId == stops[i].stopId;
      assert stops[start + k].stopId == stops[i].stopId;
    }
    if i + 1 < |stops| && JoinsBy(stops, v, i) {
      assert vp.stops[i - start].stopId == stops[i].stopId;
    }
  }

  lemma {:induction false} SomeEntry(preds: seq<VehiclePrediction>, id: string)
    requires EntriesOf(preds, id) != []
    ensures exists vp :: vp in preds && vp.vehicleId == id
  {
    if preds[0].vehicleId == id {
      assert preds[0] in preds;
    } else {
      SomeEntry(preds[1..], id);
      var vp :| vp in preds[1..] && vp.vehicleId == id;
      assert vp in preds;
    }
  }

  lemma SameIdSameVehicle(vehicles: seq<VehicleSnapshot>, v: VehicleSnapshot, w: VehicleSnapshot)
    requires DistinctVehicleIds(vehicles) && v in vehicles && w in vehicles && v.vehicleId == w.vehicleId
    ensures v == w
  {
  }

  lemma EntryOf(snapshot: RouteSnapshot, v: VehicleSnapshot, fraction: real) returns (vp: VehiclePrediction)
    requires 0.0 <= fraction <= 1.0 && Storable(snapshot) && v in snapshot.vehicles && Joins(snapshot.stops, v)
    ensures vp in Predict(snapshot, fraction).vehiclePredictions && IsEntryFor(vp, v, snapshot.stops)
  {
    EntryExactlyWhenJoins(snapshot, v, fraction);
    SomeEntry(Predict(snapshot, fraction).vehiclePredictions, v.vehicleId);
    vp :| vp in Predict(snapshot, fraction).vehiclePredictions && vp.vehicleId == v.vehicleId;
    LoadsAreSound(snapshot, fraction);
    var w :| w in snapshot.vehicles && IsEntryFor(vp, w, snapshot.stops);
    SameIdSameVehicle(snapshot.vehicles, v, w);
  }

  lemma VisitedThenReached(snapshot: RouteSnapshot, fraction: real, i: nat)
    requires 0.0 <= fraction <= 1.0 && Storable(snapshot) && i < |snapshot.stops|
    requires Visited(Predict(snapshot, fraction).vehiclePredictions, snapshot.stops[i].stopId)
    ensures Reached(snapshot, i)
  {
    var preds, stops := Predict(snapshot, fraction).vehiclePredictions, snapshot.stops;
    var n :| 0 <= n < |preds| && Visits(preds[n], stops[i].stopId);
    LoadsAreSound(snapshot, fraction);
    assert preds[n] in preds;
    var v :| v in snapshot.vehicles && IsEntryFor(preds[n], v, stops);
    EntryVisits(preds[n], v, stops, i);
  }

  lemma VisitedIsReached(snapshot: RouteSnapshot, fraction: real, i: nat)
    requires 0.0 <= fraction <= 1.0 && Storable(snapshot) && i < |snapshot.stops|
    ensures Visited(Predict(snapshot, fraction).vehiclePredictions, snapshot.stops[i].stopId) <==> Reached(snapshot, i)
  {
    var preds, stops := Predict(snapshot, fraction).vehiclePredictions, snapshot.stops;
    if Visited(preds, stops[i].stopId) {
      VisitedThenReached(snapshot, fraction, i);
    }
    if Reached(snapshot, i) {
      var v :| v in snapshot.vehicles && JoinsBy(stops, v, i);
      var vp := EntryOf(snapshot, v, fraction);
      EntryVisits(vp, v, stops, i);
      var n :| 0 <= n < |preds| && preds[n] == vp;
    }
  }

  lemma StrandedStopIs(snapshot: RouteSnapshot, fraction: real, i: nat)
    requires 0.0 <= fraction <= 1.0 && Storable(snapshot) && |snapshot.stops| > 1 && i < |snapshot.stops|
    ensures var r, id := Predict(snapshot, fraction), snapshot.stops[i].stopId;
            && (id in r.strandedAtStops ==> Waiting(snapshot.stops[i]) > 0)
            && (Waiting(snapshot.stops[i]) > 0 && !Visited(r.vehiclePredictions, id) ==> id in r.strandedAtStops)
  {
    var r, id := Predict(snapshot, fraction), snapshot.stops[i].stopId;
    PassengersConserved(snapshot, fraction);
    assert BalancedAt(snapshot, r, i);
    StrandedMapEntries(snapshot.stops, LeftOver(snapshot, fraction), |snapshot.stops|);
    Relief.LeftNeverGrows(snapshot.stops, InitialWaiting(snapshot.stops), FrontToBack(snapshot.vehicles), ByFraction(fraction));
    if !Visited(r.vehiclePredictions, id) {
      NobodyBoardsUnvisited(r.vehiclePredictions, id);
    }
  }

  /**
   The reader shows the whole of the engine's stranded map exactly when every stop where someone waits lies
   before the terminus and at or after the entry stop of some vehicle that joins.
   */
  lemma StrandedWhollyShownIff(snapshot: RouteSnapshot, fraction: real)
    requires 0.0 <= fraction <= 1.0 && Storable(snapshot) && |snapshot.stops| > 1
    ensures var r := Predict(snapshot, fraction);
            OnlyVisited(r.strandedAtStops, r.vehiclePredictions) == r.strandedAtStops
            <==> forall i :: 0 <= i < |snapshot.stops| && Waiting(snapshot.stops[i]) > 0 ==> Reached(snapshot, i)
  {
    var r, stops := Predict(snapshot, fraction), snapshot.stops;
    WhollyShownIfVisited(r.strandedAtStops, r.vehiclePredictions);
    forall i | 0 <= i < |stops|
      ensures Visited(r.vehiclePredictions, stops[i].stopId) <==> Reached(snapshot, i)
      ensures stops[i].stopId in r.strandedAtStops ==> Waiting(stops[i]) > 0
      ensures Waiting(stops[i]) > 0 && !Reached(snapshot, i) ==> stops[i].stopId in r.strandedAtStops
    {
      VisitedIsReached(snapshot, fraction, i);
      StrandedStopIs(snapshot, fraction, i);
    }
    StrandedArePositive(stops, LeftOver(snapshot, fraction), |stops|);
  }
}
