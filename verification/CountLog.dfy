/** Crowd counts in the database: a log of every reading and a table with the latest one per device. */
module CountLog {
  import opened Prelude

  datatype LogRow = LogRow(time: int, deviceId: string, stopId: string, count: int, zone: Option<string>)

  datatype CurrentRow =
    CurrentRow(stopId: string, count: int, previous: Option<int>, zone: Option<string>, updatedAt: int)

  /** The steps of a write that may raise; an exception before the commit rolls the transaction back. */
  datatype WriteStep = Connect | InsertLog | UpsertCurrent | Notify | Commit

  /** A reading as it arrives; time is None when its timestamp is not a representable date. */
  datatype Reading = Reading(deviceId: string, time: Option<int>, count: int, zone: Option<string>)

  /** The stops, crowd_count and current_counts tables, sent notifications, and the writer's cache. */
  datatype State = State(
    stops: map<string, string>, log: seq<LogRow>, current: map<string, CurrentRow>,
    notifications: seq<string>, cache: map<string, string>)

  /**
   What happens between two looks at the tables. StopsChange is a seeding or an edit of the stops table. The
   seeding always writes a device id equal to the stop id, so only an edit from outside moves a device.
   */
  datatype Event =
    | StopsChange(stops: map<string, string>)
    | Write(reading: Reading, reloadWorks: bool, failing: Option<WriteStep>)

  // What a write does

  function Reloaded(s: State, deviceId: string, reloadWorks: bool): State {
    if deviceId !in s.cache && reloadWorks then s.(cache := s.stops) else s
  }

  function Upserted(current: map<string, CurrentRow>, row: LogRow): map<string, CurrentRow> {
    if row.deviceId in current then
      var was := current[row.deviceId];
      current[row.deviceId := CurrentRow(was.stopId, row.count, Some(was.count), row.zone, row.time)]
    else current[row.deviceId := CurrentRow(row.stopId, row.count, None, row.zone, row.time)]
  }

  function Logged(s: State, row: LogRow): State {
    s.(log := s.log + [row], current := Upserted(s.current, row),
       notifications := s.notifications + ["crowd_count"])
  }

  function AfterWrite(s: State, reading: Reading, reloadWorks: bool, failing: Option<WriteStep>): State {
    var resolved := Reloaded(s, reading.deviceId, reloadWorks);
    if reading.deviceId !in resolved.cache || reading.time.None? || failing.Some? then resolved
    else Logged(resolved, LogRow(reading.time.value, reading.deviceId, resolved.cache[reading.deviceId],
                                 reading.count, reading.zone))
  }

  function AfterEvent(s: State, e: Event): State {
    match e
    case StopsChange(stops) => s.(stops := stops)
    case Write(reading, reloadWorks, failing) => AfterWrite(s, reading, reloadWorks, failing)
  }

  function After(s: State, events: seq<Event>): State {
    if events == [] then s else AfterEvent(After(s, events[..|events| - 1]), events[|events| - 1])
  }

  /**
   A reading enters the log exactly when its device has a stop in the cache, or a reload that works finds one,
   its time is a date, and no step raises. Then the row says what the reading says, with the stop known for the
   device, the device's current row takes over count, zone and time and keeps the count before as the previous
   one and the stop it had, and "crowd_count" is sent. Otherwise both tables and the notifications stay.
   */
  lemma ReadingIsLoggedWhen(s: State, deviceId: string, time: Option<int>, count: int, zone: Option<string>,
                            reloadWorks: bool, failing: Option<WriteStep>)
    ensures var s' := AfterWrite(s, Reading(deviceId, time, count, zone), reloadWorks, failing);
            var known := deviceId in s.cache || (reloadWorks && deviceId in s.stops);
            && s'.stops == s.stops
            && s'.cache == (if deviceId !in s.cache && reloadWorks then s.stops else s.cache)
            && (if known && time.Some? && failing.None?
                then && s'.log == s.log + [LogRow(time.value, deviceId, s'.cache[deviceId], count, zone)]
                     && s'.notifications == s.notifications + ["crowd_count"]
                     && s'.current.Keys == s.current.Keys + {deviceId}
                     && s'.current[deviceId].count == count && s'.current[deviceId].zone == zone
                     && s'.current[deviceId].updatedAt == time.value
                     && (if deviceId in s.current
                         then && s'.current[deviceId].stopId == s.current[deviceId].stopId
                              && s'.current[deviceId].previous == Some(s.current[deviceId].count)
                         else && s'.current[deviceId].stopId == s'.cache[deviceId]
                              && s'.current[deviceId].previous == None)
                     && forall d :: d in s.current && d != deviceId ==> s'.current[d] == s.current[d]
                else s'.log == s.log && s'.current == s.current && s'.notifications == s.notifications)
  {
  }

  // As it runs

  class CountWriter {
    var stops: map<string, string>
    var log: seq<LogRow>
    var current: map<string, CurrentRow>
    var notifications: seq<string>
    var stopIdCache: map<string, string>

    function Contents(): State
      reads this
    {
      State(stops, log, current, notifications, stopIdCache)
    }

    constructor (stops: map<string, string>, reloadWorks: bool)
      ensures Contents() == State(stops, [], map[], [], if reloadWorks then stops else map[])
    {
      this.stops, log, current, notifications, stopIdCache := stops, [], map[], [], map[];
      new;
      LoadStopIdCache(reloadWorks);
    }

    method LoadStopIdCache(reloadWorks: bool)
      modifies this`stopIdCache
      ensures stopIdCache == if reloadWorks then stops else old(stopIdCache)
    {
      if reloadWorks {
        stopIdCache := stops;
      }
    }

    method ResolveStopId(deviceId: string, reloadWorks: bool) returns (stopId: Option<string>)
      modifies this`stopIdCache
      ensures Contents() == Reloaded(old(Contents()), deviceId, reloadWorks)
      ensures stopId == if deviceId in stopIdCache then Some(stopIdCache[deviceId]) else None
    {
      if deviceId !in stopIdCache {
        LoadStopIdCache(reloadWorks);
      }
      stopId := if deviceId in stopIdCache then Some(stopIdCache[deviceId]) else None;
    }

    /** The statements work on copies of the tables; only the commit puts them in place. */
    method WriteCrowdCount(reading: Reading, reloadWorks: bool, failing: Option<WriteStep>)
      modifies this
      ensures Contents() == AfterWrite(old(Contents()), reading, reloadWorks, failing)
    {
      assert failing.None? || failing.value.Connect? || failing.value.InsertLog? || failing.value.UpsertCurrent?
          || failing.value.Notify? || failing.value.Commit?;
      var stopId := ResolveStopId(reading.deviceId, reloadWorks);
      if stopId.None? { return; }
      if reading.time.None? { return; }
      var row := LogRow(reading.time.value, reading.deviceId, stopId.value, reading.count, reading.zone);
      if failing == Some(Connect) { return; }
      var newLog, newCurrent := log, current;
      if failing == Some(InsertLog) { return; }
      newLog := newLog + [row];
      if failing == Some(UpsertCurrent) { return; }
      if row.deviceId in newCurrent {
        var was := newCurrent[row.deviceId];
        newCurrent := newCurrent[row.deviceId := was.(previous := Some(was.count), count := row.count,
                                                      zone := row.zone, updatedAt := row.time)];
      } else {
        newCurrent := newCurrent[row.deviceId := CurrentRow(row.stopId, row.count, None, row.zone, row.time)];
      }
      if failing == Some(Notify) { return; }
      if failing == Some(Commit) { return; }
      log, current, notifications := newLog, newCurrent, notifications + ["crowd_count"];
    }
  }

  // The table against the log

  /** The log rows of one device, oldest first. */
  function Entries(log: seq<LogRow>, deviceId: string): seq<LogRow> {
    if log == [] then []
    else
      var last := log[|log| - 1];
      Entries(log[..|log| - 1], deviceId) + if last.deviceId == deviceId then [last] else []
  }

  lemma EntriesOneMore(log: seq<LogRow>, row: LogRow, deviceId: string)
    ensures Entries(log + [row], deviceId) == Entries(log, deviceId) + if row.deviceId == deviceId then [row] else []
  {
    assert (log + [row])[..|log|] == log;
  }

  /** A device's row as its log entries determine it. */
  function Latest(entries: seq<LogRow>): Option<CurrentRow> {
    if entries == [] then None
    else
      var last := entries[|entries| - 1];
      var previous := if |entries| == 1 then None else Some(entries[|entries| - 2].count);
      Some(CurrentRow(entries[0].stopId, last.count, previous, last.zone, last.time))
  }

  ghost predicate Agrees(s: State) {
    forall d :: (if d in s.current then Some(s.current[d]) else None) == Latest(Entries(s.log, d))
  }

  lemma LoggedAgrees(s: State, row: LogRow)
    requires Agrees(s)
    ensures Agrees(Logged(s, row))
  {
    var t := Logged(s, row);
    forall d ensures (if d in t.current then Some(t.current[d]) else None) == Latest(Entries(t.log, d)) {
      EntriesOneMore(s.log, row, d);
      var entries := Entries(s.log, d);
      assert (if d in s.current then Some(s.current[d]) else None) == Latest(entries);
      if row.deviceId == d && entries != [] {
        assert (entries + [row])[0] == entries[0] && (entries + [row])[|entries| - 1] == entries[|entries| - 1];
      }
    }
  }

  /**
   After any run of writes, whether committed, rolled back, skipped for want of a stop, or mixed with
   changes of the stops table, each device's current row holds the last count logged for it and, as
   previous count, the one before; a device has a row just when it has a log entry.
   */
  lemma {:induction false} CurrentFollowsLog(s: State, events: seq<Event>)
    requires Agrees(s)
    ensures Agrees(After(s, events))
  {
    if events != [] {
      var before := After(s, events[..|events| - 1]);
      CurrentFollowsLog(s, events[..|events| - 1]);
      match events[|events| - 1] {
        case StopsChange(stops) => {
          assert After(s, events).log == before.log && After(s, events).current == before.current;
        }
        case Write(reading, reloadWorks, failing) => {
          var resolved := Reloaded(before, reading.deviceId, reloadWorks);
          assert resolved.log == before.log && resolved.current == before.current;
          if After(s, events) != resolved {
            LoggedAgrees(resolved, After(s, events).log[|before.log|]);
          }
        }
      }
    }
  }

  // Hotspots

  datatype Hotspot = Hotspot(stopId: string, count: int, trend: string, delta: int)

  method CrowdingHotspots(rows: seq<CurrentRow>) returns (out: seq<Hotspot>)
    ensures |out| == |rows|
    ensures forall k :: 0 <= k < |rows| ==> out[k] == HotspotOf(rows[k])
  {
    out := [];
    for n := 0 to |rows|
      invariant |out| == n && forall k :: 0 <= k < n ==> out[k] == HotspotOf(rows[k])
    {
      var r := rows[n];
      var delta, trend := 0, "stable";
      if r.previous.Some? {
        delta := r.count - r.previous.value;
        trend := if delta > 0 then "rising" else if delta < 0 then "falling" else "stable";
      }
      out := out + [Hotspot(r.stopId, r.count, trend, delta)];
    }
  }

  function HotspotOf(r: CurrentRow): Hotspot {
    var delta := if r.previous.None? then 0 else r.count - r.previous.value;
    Hotspot(r.stopId, r.count, if delta > 0 then "rising" else if delta < 0 then "falling" else "stable", delta)
  }

  /** The change shown for a device is the difference of its last two log entries, or 0 if it has one. */
  lemma DeltaIsLastDifference(s: State, events: seq<Event>, d: string)
    requires Agrees(s) && d in After(s, events).current
    ensures var end := After(s, events);
            var entries := Entries(end.log, d);
            var n, shown := |entries|, HotspotOf(end.current[d]);
            && n > 0 && shown.count == entries[n - 1].count
            && shown.delta == (if n == 1 then 0 else entries[n - 1].count - entries[n - 2].count)
            && shown.stopId == entries[0].stopId
            && (shown.trend == "stable" <==> n == 1 || entries[n - 1].count == entries[n - 2].count)
            && (shown.trend == "rising" <==> n > 1 && entries[n - 1].count > entries[n - 2].count)
            && (shown.trend == "falling" <==> n > 1 && entries[n - 1].count < entries[n - 2].count)
  {
    CurrentFollowsLog(s, events);
    var end := After(s, events);
    assert Some(end.current[d]) == Latest(Entries(end.log, d));
  }

  // The stop of a device

  ghost predicate Within(m: map<string, string>, stops: map<string, string>) {
    forall d :: d in m ==> d in stops && stops[d] == m[d]
  }

  /** No device that has a stop is ever moved to another. */
  ghost predicate StopsOnlyAdded(s: State, events: seq<Event>) {
    forall k :: 0 <= k < |events| && events[k].StopsChange? ==> Within(After(s, events[..k]).stops, events[k].stops)
  }

  ghost predicate RowsMapped(log: seq<LogRow>, stops: map<string, string>) {
    forall r :: r in log ==> r.deviceId in stops && stops[r.deviceId] == r.stopId
  }

  lemma AddedBefore(s: State, events: seq<Event>)
    requires events != [] && StopsOnlyAdded(s, events)
    ensures StopsOnlyAdded(s, events[..|events| - 1])
    ensures events[|events| - 1].StopsChange?
      ==> Within(After(s, events[..|events| - 1]).stops, events[|events| - 1].stops)
  {
    var fewer := events[..|events| - 1];
    forall k | 0 <= k < |fewer| ensures fewer[..k] == events[..k] {
    }
  }

  /** While no device moves, every logged row names the stop its device has in the stops table. */
  lemma {:induction false} LogNamesStops(s: State, events: seq<Event>)
    requires StopsOnlyAdded(s, events) && Within(s.cache, s.stops) && RowsMapped(s.log, s.stops)
    ensures Within(After(s, events).cache, After(s, events).stops)
    ensures RowsMapped(After(s, events).log, After(s, events).stops)
  {
    if events != [] {
      AddedBefore(s, events);
      LogNamesStops(s, events[..|events| - 1]);
    }
  }

  /** Then the row of a device, which keeps the stop of its first entry, is right about the stop too. */
  lemma CurrentNamesStops(s: State, events: seq<Event>, d: string)
    requires Agrees(s) && StopsOnlyAdded(s, events) && Within(s.cache, s.stops) && RowsMapped(s.log, s.stops)
    requires d in After(s, events).current
    ensures var end := After(s, events);
            d in end.stops && end.current[d].stopId == end.stops[d]
  {
    CurrentFollowsLog(s, events);
    LogNamesStops(s, events);
    var end := After(s, events);
    var entries := Entries(end.log, d);
    assert Some(end.current[d]) == Latest(entries);
    EntriesAreLogged(end.log, d, 0);
  }

  lemma {:induction false} EntriesAreLogged(log: seq<LogRow>, d: string, k: nat)
    requires k < |Entries(log, d)|
    ensures Entries(log, d)[k] in log && Entries(log, d)[k].deviceId == d
  {
    var fewer := log[..|log| - 1];
    if k < |Entries(fewer, d)| {
      EntriesAreLogged(fewer, d, k);
    }
  }

  /**
   In general the row keeps the stop of the first entry, so it names the stop of the last reading exactly
   when the device was logged at the same stop first and last.
   */
  lemma RowKeepsFirstStop(s: State, events: seq<Event>, d: string)
    requires Agrees(s) && d in After(s, events).current
    ensures var end := After(s, events);
            var entries := Entries(end.log, d);
            && entries != [] && end.current[d].stopId == entries[0].stopId
            && (end.current[d].stopId == entries[|entries| - 1].stopId
                <==> entries[0].stopId == entries[|entries| - 1].stopId)
  {
    CurrentFollowsLog(s, events);
    var end := After(s, events);
    assert Some(end.current[d]) == Latest(Entries(end.log, d));
  }

  /** A device that an edit of the stops table moves, and that then reports again: its row stays with the old stop. */
  lemma MovedDeviceKeepsStop()
    ensures var moved := [Write(Reading("d", Some(0), 5, None), true, None),
                          StopsChange(map["d" := "B"]),
                          Write(Reading("e", Some(1), 1, None), true, None),
                          Write(Reading("d", Some(2), 7, None), true, None)];
            var end := After(State(map["d" := "A"], [], map[], [], map[]), moved);
            && "d" in end.current && end.current["d"].stopId == "A"
            && |end.log| == 2 && end.log[1] == LogRow(2, "d", "B", 7, None)
  {
    var s0 := State(map["d" := "A"], [], map[], [], map[]);
    var e0 := Write(Reading("d", Some(0), 5, None), true, None);
    var e1 := StopsChange(map["d" := "B"]);
    var e2 := Write(Reading("e", Some(1), 1, None), true, None);
    var e3 := Write(Reading("d", Some(2), 7, None), true, None);
    AfterFour(s0, e0, e1, e2, e3);
    assert "d" != "e";
    var s1 := AfterEvent(s0, e0);
    var s3 := AfterEvent(AfterEvent(s1, e1), e2);
    assert s1.current["d"].stopId == "A" && |s1.log| == 1;
    assert s3.current == s1.current && s3.log == s1.log && s3.cache == map["d" := "B"];
  }

  lemma AfterFour(s: State, a: Event, b: Event, c: Event, d: Event)
    ensures After(s, [a, b, c, d]) == AfterEvent(AfterEvent(AfterEvent(AfterEvent(s, a), b), c), d)
  {
    assert [a, b, c, d][..3] == [a, b, c];
    assert [a, b, c][..2] == [a, b];
    assert [a, b][..1] == [a];
    assert After(s, [a]) == AfterEvent(After(s, []), a) by {
      assert [a][..0] == [];
    }
    assert After(s, [a, b]) == AfterEvent(After(s, [a]), b);
    assert After(s, [a, b, c]) == AfterEvent(After(s, [a, b]), c);
  }
}
