/**
 The reactive prediction loop: a trailing debounce over database notifications with a periodic fallback.
 Time is what the monotonic clock shows; the clock readings of an iteration are its environment.
 */
module PredictionLoop {
  import opened Prelude

  datatype Config = Config(debounce: real, interval: real)

  /** deadline is set exactly while a trigger is pending. */
  datatype LoopState = LoopState(pending: bool, deadline: Option<real>, lastCycle: real)

  /** A notification and the clock reading when it is popped from the queue. */
  datatype Notice = Notice(payload: string, poppedAt: real)

  /** One iteration: when it starts, what it pops, when it decides, and when its cycle, if any, ends. */
  datatype Tick = Tick(start: real, notices: seq<Notice>, decided: real, finished: real)

  datatype Kind = ByDebounce | ByInterval

  datatype Cycle = Cycle(kind: Kind, started: real, ended: real)

  predicate IsTrigger(payload: string) {
    payload == "crowd_count" || payload == "gtfs_trip_updates"
  }

  function Least(a: real, b: real): real {
    if a <= b then a else b
  }

  function AtLeastZero(a: real): real {
    if a >= 0.0 then a else 0.0
  }

  /** How long the iteration may sleep: a second, the time to the deadline, or the time to the next period. */
  function Timeout(c: Config, s: LoopState, now: real): real {
    var toPeriod := AtLeastZero(s.lastCycle + c.interval - now);
    var toDeadline := if s.deadline.Some? then AtLeastZero(s.deadline.value - now) else 1.0;
    Least(Least(1.0, toDeadline), toPeriod)
  }

  function OnNotice(c: Config, s: LoopState, n: Notice): LoopState {
    if IsTrigger(n.payload) then s.(pending := true, deadline := Some(n.poppedAt + c.debounce)) else s
  }

  function OnNotices(c: Config, s: LoopState, notices: seq<Notice>): LoopState {
    if notices == [] then s
    else OnNotice(c, OnNotices(c, s, notices[..|notices| - 1]), notices[|notices| - 1])
  }

  /** Whether to run a cycle now, and why. */
  function Decide(c: Config, s: LoopState, now: real): Option<Kind> {
    if s.pending && s.deadline.Some? && now >= s.deadline.value then Some(ByDebounce)
    else if now - s.lastCycle >= c.interval then Some(ByInterval)
    else None
  }

  function Iterated(c: Config, s: LoopState, t: Tick): LoopState {
    var heard := OnNotices(c, s, t.notices);
    if Decide(c, heard, t.decided).Some? then LoopState(false, None, t.finished) else heard
  }

  function CyclesOf(c: Config, s: LoopState, t: Tick): seq<Cycle> {
    match Decide(c, OnNotices(c, s, t.notices), t.decided)
    case None => []
    case Some(kind) => [Cycle(kind, t.decided, t.finished)]
  }

  function RunState(c: Config, s: LoopState, ticks: seq<Tick>): LoopState
    decreases |ticks|
  {
    if ticks == [] then s else RunState(c, Iterated(c, s, ticks[0]), ticks[1..])
  }

  function RunCycles(c: Config, s: LoopState, ticks: seq<Tick>): seq<Cycle>
    decreases |ticks|
  {
    if ticks == [] then [] else CyclesOf(c, s, ticks[0]) + RunCycles(c, Iterated(c, s, ticks[0]), ticks[1..])
  }

  // As it runs

  class PredictionThread {
    const config: Config
    var pending: bool
    var debounceDeadline: Option<real>
    var lastCycle: real
    var cycles: seq<Cycle>

    function Current(): LoopState
      reads this
    {
      LoopState(pending, debounceDeadline, lastCycle)
    }

    /** The state after the initial cycle, which ended at the given time. */
    constructor (config: Config, initialEnd: real)
      ensures this.config == config && Current() == LoopState(false, None, initialEnd) && cycles == []
    {
      this.config := config;
      pending, debounceDeadline, lastCycle, cycles := false, None, initialEnd, [];
    }

    method SelectTimeout(now: real) returns (timeout: real)
      ensures timeout == Timeout(config, Current(), now)
      ensures 0.0 <= timeout <= 1.0
      ensures debounceDeadline.Some? ==> timeout <= AtLeastZero(debounceDeadline.value - now)
      ensures timeout <= AtLeastZero(lastCycle + config.interval - now)
      ensures || timeout == 1.0 || timeout == AtLeastZero(lastCycle + config.interval - now)
              || (debounceDeadline.Some? && timeout == AtLeastZero(debounceDeadline.value - now))
    {
      timeout := 1.0;
      if debounceDeadline.Some? {
        timeout := Least(timeout, AtLeastZero(debounceDeadline.value - now));
      }
      timeout := Least(timeout, AtLeastZero(lastCycle + config.interval - now));
    }

    /** Drains the notification queue. */
    method PopNotices(notices: seq<Notice>)
      modifies this`pending, this`debounceDeadline
      ensures Current() == OnNotices(config, old(Current()), notices)
    {
      var queue := notices;
      ghost var popped: seq<Notice> := [];
      while queue != []
        invariant popped + queue == notices
        invariant Current() == OnNotices(config, old(Current()), popped)
        decreases |queue|
      {
        var n := queue[0];
        queue := queue[1..];
        if IsTrigger(n.payload) {
          pending := true;
          debounceDeadline := Some(n.poppedAt + config.debounce);
        }
        assert (popped + [n])[..|popped|] == popped;
        popped := popped + [n];
      }
      assert popped == notices;
    }

    method RunCycle(kind: Kind, t: Tick)
      modifies this
      ensures Current() == LoopState(false, None, t.finished)
      ensures cycles == old(cycles) + [Cycle(kind, t.decided, t.finished)]
    {
      cycles := cycles + [Cycle(kind, t.decided, t.finished)];
      lastCycle := t.finished;
      pending := false;
      debounceDeadline := None;
    }

    /** One pass of the loop; the sleep between start and the notifications is the environment's. */
    method Iterate(t: Tick)
      modifies this
      ensures Current() == Iterated(config, old(Current()), t)
      ensures cycles == old(cycles) + CyclesOf(config, old(Current()), t)
    {
      var timeout := SelectTimeout(t.start);  // what select may sleep, see TickTimed
      PopNotices(t.notices);
      var now := t.decided;
      if pending && debounceDeadline.Some? && now >= debounceDeadline.value {
        RunCycle(ByDebounce, t);
        return;
      }
      if now - lastCycle >= config.interval {
        RunCycle(ByInterval, t);
      }
    }

    method Run(ticks: seq<Tick>)
      modifies this
      ensures Current() == RunState(config, old(Current()), ticks)
      ensures cycles == old(cycles) + RunCycles(config, old(Current()), ticks)
    {
      var n := 0;
      assert ticks[0..] == ticks;
      while n < |ticks|
        invariant 0 <= n <= |ticks|
        invariant RunState(config, Current(), ticks[n..]) == RunState(config, old(Current()), ticks)
        invariant cycles + RunCycles(config, Current(), ticks[n..]) == old(cycles) + RunCycles(config, old(Current()), ticks)
      {
        assert ticks[n..][0] == ticks[n] && ticks[n..][1..] == ticks[n + 1..];
        AppendAssociative(cycles, CyclesOf(config, Current(), ticks[n]),
                          RunCycles(config, Iterated(config, Current(), ticks[n]), ticks[n + 1..]));
        Iterate(ticks[n]);
        n := n + 1;
      }
    }
  }

  // Timing

  /** Clock readings of one iteration after another that ended at prev: in order, and late by at most slack. */
  ghost predicate TickTimed(c: Config, slack: real, s: LoopState, prev: real, t: Tick) {
    && prev <= t.start <= t.decided <= t.finished
    && (forall k :: 0 <= k < |t.notices| ==> t.start <= t.notices[k].poppedAt <= t.decided)
    && (forall j, k :: 0 <= j < k < |t.notices| ==> t.notices[j].poppedAt <= t.notices[k].poppedAt)
    && t.decided <= prev + Timeout(c, s, t.start) + slack
  }

  /** When the iteration ends. */
  function EndOf(c: Config, s: LoopState, t: Tick): real {
    if CyclesOf(c, s, t) == [] then t.decided else t.finished
  }

  ghost predicate Timed(c: Config, slack: real, s: LoopState, prev: real, ticks: seq<Tick>)
    decreases |ticks|
  {
    ticks == []
    || (TickTimed(c, slack, s, prev, ticks[0])
        && Timed(c, slack, Iterated(c, s, ticks[0]), EndOf(c, s, ticks[0]), ticks[1..]))
  }

  function RunEnd(c: Config, s: LoopState, prev: real, ticks: seq<Tick>): real
    decreases |ticks|
  {
    if ticks == [] then prev else RunEnd(c, Iterated(c, s, ticks[0]), EndOf(c, s, ticks[0]), ticks[1..])
  }

  /** What holds between iterations. */
  ghost predicate Settled(c: Config, s: LoopState, prev: real) {
    && (s.pending <==> s.deadline.Some?)
    && s.lastCycle <= prev <= s.lastCycle + AtLeastZero(c.interval)
    && (s.deadline.Some? ==> s.deadline.value >= s.lastCycle + c.debounce)
  }

  lemma {:induction false} NoticesSettle(c: Config, s: LoopState, notices: seq<Notice>)
    requires s.pending <==> s.deadline.Some?
    requires s.deadline.Some? ==> s.deadline.value >= s.lastCycle + c.debounce
    requires forall k :: 0 <= k < |notices| ==> notices[k].poppedAt >= s.lastCycle
    ensures var s' := OnNotices(c, s, notices);
            && s'.lastCycle == s.lastCycle && (s'.pending <==> s'.deadline.Some?)
            && (s'.deadline.Some? ==> s'.deadline.value >= s'.lastCycle + c.debounce)
  {
    if notices != [] {
      NoticesSettle(c, s, notices[..|notices| - 1]);
    }
  }

  lemma TickSettles(c: Config, slack: real, s: LoopState, prev: real, t: Tick)
    requires Settled(c, s, prev) && TickTimed(c, slack, s, prev, t)
    ensures Settled(c, Iterated(c, s, t), EndOf(c, s, t))
    ensures t.decided <= s.lastCycle + AtLeastZero(c.interval) + slack
    ensures CyclesOf(c, s, t) == [] ==> Iterated(c, s, t).lastCycle == s.lastCycle
    ensures CyclesOf(c, s, t) != [] ==> Iterated(c, s, t).lastCycle == t.finished
    ensures forall cycle :: cycle in CyclesOf(c, s, t) ==> cycle.started >= s.lastCycle + Least(c.debounce, c.interval)
  {
    NoticesSettle(c, s, t.notices);
  }

  /** pending holds exactly when a deadline is set, throughout any run. */
  lemma {:induction false} PendingIffDeadline(c: Config, slack: real, s: LoopState, prev: real, ticks: seq<Tick>)
    requires Settled(c, s, prev) && Timed(c, slack, s, prev, ticks)
    ensures Settled(c, RunState(c, s, ticks), RunEnd(c, s, prev, ticks))
    decreases |ticks|
  {
    if ticks != [] {
      TickSettles(c, slack, s, prev, ticks[0]);
      PendingIffDeadline(c, slack, Iterated(c, s, ticks[0]), EndOf(c, s, ticks[0]), ticks[1..]);
    }
  }

  // Never too late

  /**
   However often triggers push the deadline back, the next cycle starts at most the interval plus slack
   after the previous one ended: a run that shows no cycle has not got past the interval.
   */
  lemma {:induction false} NextCycleInTime(c: Config, slack: real, s: LoopState, prev: real, ticks: seq<Tick>)
    requires Settled(c, s, prev) && Timed(c, slack, s, prev, ticks)
    ensures var cycles := RunCycles(c, s, ticks);
            if cycles == [] then RunEnd(c, s, prev, ticks) <= s.lastCycle + AtLeastZero(c.interval)
            else cycles[0].started <= s.lastCycle + AtLeastZero(c.interval) + slack
    decreases |ticks|
  {
    if ticks != [] {
      TickSettles(c, slack, s, prev, ticks[0]);
      NextCycleInTime(c, slack, Iterated(c, s, ticks[0]), EndOf(c, s, ticks[0]), ticks[1..]);
    }
  }

  /** Successive cycles, starting from one that ended at previousEnd, keep a gap between least and most. */
  ghost predicate GapsWithin(cycles: seq<Cycle>, previousEnd: real, least: real, most: real)
    decreases |cycles|
  {
    cycles == []
    || (previousEnd + least <= cycles[0].started <= previousEnd + most
        && GapsWithin(cycles[1..], cycles[0].ended, least, most))
  }

  /** Every cycle of a run starts at least min(debounce, interval) and at most interval plus slack after the one before ended. */
  lemma {:induction false} CyclesKeepTheirDistance(c: Config, slack: real, s: LoopState, prev: real, ticks: seq<Tick>)
    requires Settled(c, s, prev) && Timed(c, slack, s, prev, ticks)
    ensures GapsWithin(RunCycles(c, s, ticks), s.lastCycle, Least(c.debounce, c.interval), AtLeastZero(c.interval) + slack)
    decreases |ticks|
  {
    if ticks != [] {
      var t := ticks[0];
      var rest := RunCycles(c, Iterated(c, s, t), ticks[1..]);
      TickSettles(c, slack, s, prev, t);
      CyclesKeepTheirDistance(c, slack, Iterated(c, s, t), EndOf(c, s, t), ticks[1..]);
      if CyclesOf(c, s, t) == [] {
        assert CyclesOf(c, s, t) + rest == rest;
      } else {
        assert (CyclesOf(c, s, t) + rest)[1..] == rest;
      }
    }
  }

  lemma {:induction false} FirstCycleNotBefore(c: Config, slack: real, s: LoopState, prev: real, ticks: seq<Tick>)
    requires Timed(c, slack, s, prev, ticks)
    ensures RunCycles(c, s, ticks) != [] ==> RunCycles(c, s, ticks)[0].started >= prev
    ensures ticks != [] && RunCycles(c, s, ticks) != [] ==> RunCycles(c, s, ticks)[0].started >= ticks[0].decided
    decreases |ticks|
  {
    if ticks != [] {
      FirstCycleNotBefore(c, slack, Iterated(c, s, ticks[0]), EndOf(c, s, ticks[0]), ticks[1..]);
    }
  }

  /**
   A trigger popped in the first of the given iterations is followed by a cycle that starts after the pop
   and at most the interval plus slack after it, unless the run ends before the interval is up.
   */
  lemma TriggerIsServed(c: Config, slack: real, s: LoopState, prev: real, ticks: seq<Tick>, k: nat)
    requires Settled(c, s, prev) && Timed(c, slack, s, prev, ticks) && ticks != []
    requires k < |ticks[0].notices| && (ticks[0].notices[k].payload == "crowd_count" || ticks[0].notices[k].payload == "gtfs_trip_updates")
    ensures var popped, cycles := ticks[0].notices[k].poppedAt, RunCycles(c, s, ticks);
            if cycles == [] then RunEnd(c, s, prev, ticks) <= popped + AtLeastZero(c.interval)
            else popped <= cycles[0].started <= popped + AtLeastZero(c.interval) + slack
  {
    NextCycleInTime(c, slack, s, prev, ticks);
    FirstCycleNotBefore(c, slack, s, prev, ticks);
  }

  /** Every trigger of a run is served in time, or the run ends before its time is up. */
  ghost predicate Served(cycles: seq<Cycle>, runEnd: real, popped: real, most: real, slack: real) {
    || runEnd <= popped + most
    || exists cycle :: cycle in cycles && popped <= cycle.started <= popped + most + slack
  }

  lemma {:induction false} EveryTriggerIsServed(c: Config, slack: real, s: LoopState, prev: real, ticks: seq<Tick>, n: nat, k: nat)
    requires Settled(c, s, prev) && Timed(c, slack, s, prev, ticks) && n < |ticks|
    requires k < |ticks[n].notices| && (ticks[n].notices[k].payload == "crowd_count" || ticks[n].notices[k].payload == "gtfs_trip_updates")
    ensures Served(RunCycles(c, s, ticks), RunEnd(c, s, prev, ticks), ticks[n].notices[k].poppedAt,
                   AtLeastZero(c.interval), slack)
    decreases |ticks|
  {
    var cycles := RunCycles(c, s, ticks);
    if n == 0 {
      TriggerIsServed(c, slack, s, prev, ticks, k);
      assert cycles != [] ==> cycles[0] in cycles;
    } else {
      TickSettles(c, slack, s, prev, ticks[0]);
      var rest := RunCycles(c, Iterated(c, s, ticks[0]), ticks[1..]);
      EveryTriggerIsServed(c, slack, Iterated(c, s, ticks[0]), EndOf(c, s, ticks[0]), ticks[1..], n - 1, k);
      assert forall cycle :: cycle in rest ==> cycle in cycles;
    }
  }

  // Never too early

  ghost predicate NoTriggers(ticks: seq<Tick>) {
    forall n, k :: 0 <= n < |ticks| && 0 <= k < |ticks[n].notices| ==> !(ticks[n].notices[k].payload == "crowd_count" || ticks[n].notices[k].payload == "gtfs_trip_updates")
  }

  lemma NoTriggersLater(ticks: seq<Tick>)
    requires NoTriggers(ticks) && ticks != []
    ensures NoTriggers(ticks[1..])
  {
    assert forall n :: 0 <= n < |ticks[1..]| ==> ticks[1..][n] == ticks[n + 1];
  }

  lemma {:induction false} NoTriggerNoChange(c: Config, s: LoopState, notices: seq<Notice>)
    requires forall k :: 0 <= k < |notices| ==> !(notices[k].payload == "crowd_count" || notices[k].payload == "gtfs_trip_updates")
    ensures OnNotices(c, s, notices) == s
  {
    if notices != [] {
      NoTriggerNoChange(c, s, notices[..|notices| - 1]);
    }
  }

  /** Once triggers stop, a pending one is served at its deadline, late by at most slack, or sooner. */
  lemma {:induction false} QuietTriggerServedAtDeadline(c: Config, slack: real, s: LoopState, prev: real, ticks: seq<Tick>)
    requires Settled(c, s, prev) && Timed(c, slack, s, prev, ticks) && NoTriggers(ticks)
    requires s.deadline.Some? && prev <= s.deadline.value
    ensures var cycles := RunCycles(c, s, ticks);
            if cycles == [] then RunEnd(c, s, prev, ticks) <= s.deadline.value
            else cycles[0].started <= s.deadline.value + slack
    decreases |ticks|
  {
    if ticks != [] {
      var t := ticks[0];
      TickSettles(c, slack, s, prev, t);
      NoTriggerNoChange(c, s, t.notices);
      if CyclesOf(c, s, t) == [] {
        NoTriggersLater(ticks);
        QuietTriggerServedAtDeadline(c, slack, Iterated(c, s, t), EndOf(c, s, t), ticks[1..]);
      }
    }
  }

  /** Without triggers every cycle is periodic, and at least one interval after the one before ended. */
  lemma {:induction false} WithoutTriggersOnlyPeriodic(c: Config, slack: real, s: LoopState, prev: real, ticks: seq<Tick>)
    requires Settled(c, s, prev) && Timed(c, slack, s, prev, ticks) && NoTriggers(ticks) && !s.pending
    ensures forall cycle :: cycle in RunCycles(c, s, ticks) ==> cycle.kind == ByInterval
    ensures GapsWithin(RunCycles(c, s, ticks), s.lastCycle, c.interval, AtLeastZero(c.interval) + slack)
    decreases |ticks|
  {
    if ticks != [] {
      var t := ticks[0];
      TickSettles(c, slack, s, prev, t);
      NoTriggerNoChange(c, s, t.notices);
      NoTriggersLater(ticks);
      var rest := RunCycles(c, Iterated(c, s, t), ticks[1..]);
      WithoutTriggersOnlyPeriodic(c, slack, Iterated(c, s, t), EndOf(c, s, t), ticks[1..]);
      if CyclesOf(c, s, t) == [] {
        assert CyclesOf(c, s, t) + rest == rest;
      } else {
        assert (CyclesOf(c, s, t) + rest)[1..] == rest;
      }
    }
  }

  /** The notifications that a cycle itself causes when it stores predictions and decisions. */
  predicate OwnPayload(payload: string) {
    payload == "predictions" || payload == "scheduler_decision"
  }

  /** A run that only hears its own notifications never wakes itself: it runs periodic cycles only. */
  lemma OwnNotificationsDoNotWake(c: Config, slack: real, s: LoopState, prev: real, ticks: seq<Tick>)
    requires Settled(c, s, prev) && Timed(c, slack, s, prev, ticks) && !s.pending
    requires forall n, k :: 0 <= n < |ticks| && 0 <= k < |ticks[n].notices| ==> OwnPayload(ticks[n].notices[k].payload)
    ensures forall cycle :: cycle in RunCycles(c, s, ticks) ==> cycle.kind == ByInterval
    ensures GapsWithin(RunCycles(c, s, ticks), s.lastCycle, c.interval, AtLeastZero(c.interval) + slack)
  {
    forall payload: string | OwnPayload(payload) ensures !(payload == "crowd_count" || payload == "gtfs_trip_updates") {
      assert |"predictions"| == 11 && "crowd_count"[0] == 'c' && "predictions"[0] == 'p';
      assert |"scheduler_decision"| == 18 && |"gtfs_trip_updates"| == 17;
    }
    WithoutTriggersOnlyPeriodic(c, slack, s, prev, ticks);
  }

  // Quiet before a debounced cycle

  /** All triggers in the list are at least a debounce period old at the deadline it leaves. */
  lemma {:induction false} DeadlineIsAfterAll(c: Config, s: LoopState, notices: seq<Notice>, k: nat)
    requires forall i, j :: 0 <= i < j < |notices| ==> notices[i].poppedAt <= notices[j].poppedAt
    requires k < |notices| && (notices[k].payload == "crowd_count" || notices[k].payload == "gtfs_trip_updates")
    ensures var s' := OnNotices(c, s, notices);
            s'.deadline.Some? && notices[k].poppedAt + c.debounce <= s'.deadline.value
  {
    if k < |notices| - 1 {
      DeadlineIsAfterAll(c, s, notices[..|notices| - 1], k);
    }
  }

  lemma {:induction false} DeadlineOnlyMovesBack(c: Config, s: LoopState, notices: seq<Notice>, bound: real)
    requires forall k :: 0 <= k < |notices| ==> notices[k].poppedAt + c.debounce >= bound
    requires s.deadline.Some? ==> s.deadline.value >= bound
    ensures OnNotices(c, s, notices).deadline.Some? ==> OnNotices(c, s, notices).deadline.value >= bound
  {
    if notices != [] {
      DeadlineOnlyMovesBack(c, s, notices[..|notices| - 1], bound);
    }
  }

  /**
   bound is at or after every earlier trigger plus the debounce period, and any deadline is at or after
   bound. Then each debounced cycle of the run starts at or after bound as well.
   */
  lemma {:induction false} DebouncedCyclesRespect(c: Config, slack: real, s: LoopState, prev: real, ticks: seq<Tick>, bound: real)
    requires Settled(c, s, prev) && Timed(c, slack, s, prev, ticks)
    requires bound <= prev + c.debounce && (s.deadline.Some? ==> s.deadline.value >= bound)
    ensures forall cycle :: cycle in RunCycles(c, s, ticks) && cycle.kind == ByDebounce ==> cycle.started >= bound
    decreases |ticks|
  {
    if ticks != [] {
      var t := ticks[0];
      TickSettles(c, slack, s, prev, t);
      DeadlineOnlyMovesBack(c, s, t.notices, bound);
      DebouncedCyclesRespect(c, slack, Iterated(c, s, t), EndOf(c, s, t), ticks[1..], bound);
    }
  }

  /**
   A debounced cycle starts only after a full quiet period: every trigger popped before it, in this
   iteration or any earlier one, is at least a debounce period old when it starts.
   */
  lemma DebouncedCycleWaitsForQuiet(c: Config, slack: real, s: LoopState, prev: real, ticks: seq<Tick>, k: nat)
    requires Settled(c, s, prev) && Timed(c, slack, s, prev, ticks) && ticks != []
    requires k < |ticks[0].notices| && (ticks[0].notices[k].payload == "crowd_count" || ticks[0].notices[k].payload == "gtfs_trip_updates")
    ensures forall cycle :: cycle in RunCycles(c, s, ticks) && cycle.kind == ByDebounce ==>
              ticks[0].notices[k].poppedAt + c.debounce <= cycle.started
  {
    var t := ticks[0];
    TickSettles(c, slack, s, prev, t);
    DeadlineIsAfterAll(c, s, t.notices, k);
    DebouncedCyclesRespect(c, slack, Iterated(c, s, t), EndOf(c, s, t), ticks[1..], t.notices[k].poppedAt + c.debounce);
  }

  // Exactly when

  /** When the last trigger in the list was popped. */
  function LastTrigger(notices: seq<Notice>): Option<real> {
    if notices == [] then None
    else
      var last := notices[|notices| - 1];
      if last.payload == "crowd_count" || last.payload == "gtfs_trip_updates" then Some(last.poppedAt)
      else LastTrigger(notices[..|notices| - 1])
  }

  lemma {:induction false} LastTriggerOfBoth(a: seq<Notice>, b: seq<Notice>)
    ensures LastTrigger(a + b) == if LastTrigger(b).Some? then LastTrigger(b) else LastTrigger(a)
  {
    if b == [] {
      assert a + b == a;
    } else {
      DropLastOfAppend(a, b);
      LastTriggerOfBoth(a, b[..|b| - 1]);
    }
  }

  /** What a run has heard since its last cycle, and when that cycle ended. */
  datatype Memory = Memory(heard: seq<Notice>, lastEnd: real)

  function Remember(c: Config, s: LoopState, m: Memory, ticks: seq<Tick>): Memory
    decreases |ticks|
  {
    if ticks == [] then m
    else
      var t := ticks[0];
      var next := if CyclesOf(c, s, t) == [] then Memory(m.heard + t.notices, m.lastEnd) else Memory([], t.finished);
      Remember(c, Iterated(c, s, t), next, ticks[1..])
  }

  ghost predicate Remembers(c: Config, s: LoopState, m: Memory) {
    && s.lastCycle == m.lastEnd && s.pending == LastTrigger(m.heard).Some?
    && s.deadline == match LastTrigger(m.heard) case None => None case Some(popped) => Some(popped + c.debounce)
  }

  lemma {:induction false} HearingRemembers(c: Config, s: LoopState, m: Memory, notices: seq<Notice>)
    requires Remembers(c, s, m)
    ensures Remembers(c, OnNotices(c, s, notices), Memory(m.heard + notices, m.lastEnd))
  {
    if notices == [] {
      assert m.heard + notices == m.heard;
    } else {
      HearingRemembers(c, s, m, notices[..|notices| - 1]);
      DropLastOfAppend(m.heard, notices);
    }
  }

  lemma {:induction false} RunRemembers(c: Config, s: LoopState, m: Memory, ticks: seq<Tick>)
    requires Remembers(c, s, m)
    ensures Remembers(c, RunState(c, s, ticks), Remember(c, s, m, ticks))
    decreases |ticks|
  {
    if ticks != [] {
      var t := ticks[0];
      HearingRemembers(c, s, m, t.notices);
      var next := if CyclesOf(c, s, t) == [] then Memory(m.heard + t.notices, m.lastEnd) else Memory([], t.finished);
      RunRemembers(c, Iterated(c, s, t), next, ticks[1..]);
    }
  }

  /**
   Exactly when an iteration runs a cycle: when a crowd count or a trip update was popped since the last
   cycle and the last such one is a full debounce period old, or else when the interval has passed since the
   last cycle ended. No assumption about the clock is needed.
   */
  lemma CycleExactlyWhen(c: Config, initialEnd: real, ticks: seq<Tick>, t: Tick)
    ensures var s := LoopState(false, None, initialEnd);
            var m := Remember(c, s, Memory([], initialEnd), ticks);
            var last := LastTrigger(m.heard + t.notices);
            CyclesOf(c, RunState(c, s, ticks), t)
            == if last.Some? && t.decided >= last.value + c.debounce then [Cycle(ByDebounce, t.decided, t.finished)]
               else if t.decided >= m.lastEnd + c.interval then [Cycle(ByInterval, t.decided, t.finished)]
               else []
  {
    var s := LoopState(false, None, initialEnd);
    RunRemembers(c, s, Memory([], initialEnd), ticks);
    HearingRemembers(c, RunState(c, s, ticks), Remember(c, s, Memory([], initialEnd), ticks), t.notices);
  }
}
