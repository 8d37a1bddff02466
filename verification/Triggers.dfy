/** The writers that should wake the prediction loop do, and the one it runs itself does not. */
module Triggers {
  import opened Prelude
  import opened PredictionLoop
  import CountLog
  import BatchInsert
  import PredictionTable

  /** A crowd count that enters the log is followed by a cycle in time, once its notification is popped. */
  lemma LoggedCountIsServed(c: Config, slack: real, s: LoopState, prev: real, ticks: seq<Tick>, n: nat, k: nat,
                            db: CountLog.State, reading: CountLog.Reading, reloadWorks: bool,
                            failing: Option<CountLog.WriteStep>)
    requires Settled(c, s, prev) && Timed(c, slack, s, prev, ticks) && n < |ticks| && k < |ticks[n].notices|
    requires var after := CountLog.AfterWrite(db, reading, reloadWorks, failing);
             after.log != db.log && after.notifications == db.notifications + [ticks[n].notices[k].payload]
    ensures Served(RunCycles(c, s, ticks), RunEnd(c, s, prev, ticks), ticks[n].notices[k].poppedAt,
                   AtLeastZero(c.interval), slack)
  {
    CountLog.ReadingIsLoggedWhen(db, reading.deviceId, reading.time, reading.count, reading.zone, reloadWorks, failing);
    var sent := CountLog.AfterWrite(db, reading, reloadWorks, failing).notifications;
    assert sent[|sent| - 1] == "crowd_count";
    EveryTriggerIsServed(c, slack, s, prev, ticks, n, k);
  }

  /** So are trip updates of which at least one is stored. */
  lemma StoredUpdatesAreServed(c: Config, slack: real, s: LoopState, prev: real, ticks: seq<Tick>, n: nat, k: nat,
                               isJsonb: string -> bool, updates: seq<BatchInsert.TripUpdate>, lost: Option<nat>)
    requires Settled(c, s, prev) && Timed(c, slack, s, prev, ticks) && n < |ticks| && k < |ticks[n].notices|
    requires BatchInsert.Added(isJsonb, updates, lost) != []
    requires BatchInsert.Notified(isJsonb, updates, lost) == [ticks[n].notices[k].payload]
    ensures Served(RunCycles(c, s, ticks), RunEnd(c, s, prev, ticks), ticks[n].notices[k].poppedAt,
                   AtLeastZero(c.interval), slack)
  {
    assert BatchInsert.Notified(isJsonb, updates, lost)[0] == "gtfs_trip_updates";
    EveryTriggerIsServed(c, slack, s, prev, ticks, n, k);
  }

  /** Every logged count and every batch with a stored update does send a notification. */
  lemma WritersNotify(db: CountLog.State, reading: CountLog.Reading, reloadWorks: bool, failing: Option<CountLog.WriteStep>,
                      isJsonb: string -> bool, updates: seq<BatchInsert.TripUpdate>, lost: Option<nat>)
    ensures var after := CountLog.AfterWrite(db, reading, reloadWorks, failing);
            |after.notifications| - |db.notifications| == |after.log| - |db.log|
    ensures BatchInsert.Notified(isJsonb, updates, lost) != [] <==> BatchInsert.Added(isJsonb, updates, lost) != []
  {
    CountLog.ReadingIsLoggedWhen(db, reading.deviceId, reading.time, reading.count, reading.zone, reloadWorks, failing);
  }

  /** Some stored prediction sent this. */
  ghost predicate FromPredictions(payload: string) {
    exists result, now, failing :: payload in PredictionTable.NotifiedBy(result, now, failing)
  }

  /** A run that hears only what storing predictions sends runs periodic cycles only. */
  lemma StoredPredictionsDoNotWake(c: Config, slack: real, s: LoopState, prev: real, ticks: seq<Tick>)
    requires Settled(c, s, prev) && Timed(c, slack, s, prev, ticks) && !s.pending
    requires forall n, k :: 0 <= n < |ticks| && 0 <= k < |ticks[n].notices| ==> FromPredictions(ticks[n].notices[k].payload)
    ensures forall cycle :: cycle in RunCycles(c, s, ticks) ==> cycle.kind == ByInterval
    ensures GapsWithin(RunCycles(c, s, ticks), s.lastCycle, c.interval, AtLeastZero(c.interval) + slack)
  {
    OwnNotificationsDoNotWake(c, slack, s, prev, ticks);
  }
}
