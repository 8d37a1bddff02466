/** Keeping the newest fetches: the purge of old trip updates, and the fetch cycle that ends with it. */
module Retention {
  import opened Prelude
  import opened Transactions
  import opened BatchInsert

  // The DELETE statement

  /** Adds a time to a list of distinct times, newest first. */
  function InsertTime(times: seq<int>, t: int): (r: seq<int>)
    requires Descending(times)
    ensures Descending(r) && ToSet(r) == ToSet(times) + {t}
  {
    if times == [] then [t]
    else if t > times[0] then DescendingCons(t, times); [t] + times
    else if t == times[0] then times
    else
      var rest := InsertTime(times[1..], t);
      HeadAbove(times);
      DescendingCons(times[0], rest);
      SetOfCons(times);
      [times[0]] + rest
  }

  ghost predicate Descending(times: seq<int>) {
    forall i, j :: 0 <= i < j < |times| ==> times[i] > times[j]
  }

  ghost function ToSet(times: seq<int>): set<int> {
    set t | t in times
  }

  lemma SetOfCons(times: seq<int>)
    requires times != []
    ensures ToSet(times) == {times[0]} + ToSet(times[1..])
  {
    assert times == [times[0]] + times[1..];
  }

  lemma HeadAbove(times: seq<int>)
    requires Descending(times) && times != []
    ensures Descending(times[1..]) && forall t :: t in ToSet(times[1..]) ==> t < times[0]
  {
  }

  lemma DescendingCons(t: int, times: seq<int>)
    requires Descending(times) && forall u :: u in ToSet(times) ==> u < t
    ensures Descending([t] + times) && ToSet([t] + times) == {t} + ToSet(times)
  {
    forall i, j | 0 <= i < j < |times| + 1 ensures ([t] + times)[i] > ([t] + times)[j] {
      assert times[j - 1] in ToSet(times);
    }
    assert forall u :: u in [t] + times <==> u == t || u in times;
  }

  function Times(rows: seq<StoredRow>): set<int> {
    set r | r in rows :: r.time
  }

  /** SELECT DISTINCT time ... ORDER BY time DESC. */
  function DistinctTimes(rows: seq<StoredRow>): (times: seq<int>)
    ensures Descending(times) && ToSet(times) == Times(rows)
  {
    if rows == [] then []
    else
      TimesOneMore(rows[..|rows| - 1], rows[|rows| - 1]);
      TakeOneMore(rows, |rows| - 1);
      FullSlices(rows);
      InsertTime(DistinctTimes(rows[..|rows| - 1]), rows[|rows| - 1].time)
  }

  lemma TimesOneMore(rows: seq<StoredRow>, r: StoredRow)
    ensures Times(rows + [r]) == Times(rows) + {r.time}
  {
    forall t ensures t in Times(rows + [r]) <==> t in Times(rows) + {r.time} {
      if t == r.time {
        assert r in rows + [r];
      }
      if t in Times(rows) {
        var x :| x in rows && x.time == t;
        assert x in rows + [r];
      }
    }
  }

  function NotBefore(rows: seq<StoredRow>, cutoff: int): seq<StoredRow> {
    if rows == [] then []
    else
      var last := rows[|rows| - 1];
      NotBefore(rows[..|rows| - 1], cutoff) + if last.time < cutoff then [] else [last]
  }

  /** The rows that the DELETE leaves: those not older than the last of the newest retain times. */
  function Purged(rows: seq<StoredRow>, retain: int): seq<StoredRow>
    requires retain > 0
  {
    var times := DistinctTimes(rows);
    if times == [] then rows else NotBefore(rows, times[Min(retain, |times|) - 1])
  }

  // The purge

  /** Returns whether the deletion was committed. */
  method PurgeOldTripUpdates(database: Database, retain: int, lost: Option<nat>) returns (committed: bool)
    modifies database
    ensures committed <==> retain > 0 && (lost.None? || lost.value >= 2)
    ensures database.table == if committed then Purged(old(database.table), retain) else old(database.table)
    ensures database.notifications == old(database.notifications)
  {
    if retain <= 0 {
      return false;
    }
    var tx := new Transaction(database, lost);
    var raised := tx.Replace(Purged(tx.rows, retain));
    if raised {
      return false;
    }
    raised := tx.Commit();
    committed := !raised;
  }

  /** fetch, parse, write, purge; the fetcher returns no feed when its request fails. */
  method FetchCycle(database: Database, updates: Option<seq<TripUpdate>>, retain: int,
                    writeLost: Option<nat>, purgeLost: Option<nat>)
    returns (count: nat)
    modifies database
    ensures database.table
         == AfterCycle(database.isJsonb, old(database.table), Cycle(updates, writeLost, purgeLost), retain)
    ensures updates.None? ==> database.table == old(database.table) && count == 0
    ensures updates.Some? ==> count == |updates.value|
    ensures updates.Some? && (retain <= 0 || (purgeLost.Some? && purgeLost.value < 2))
            ==> database.table == old(database.table) + Added(database.isJsonb, updates.value, writeLost)
  {
    if updates.None? {
      return 0;
    }
    WriteTripUpdates(database, updates.value, writeLost);
    var committed := PurgeOldTripUpdates(database, retain, purgeLost);
    return |updates.value|;
  }

  datatype Cycle = Cycle(updates: Option<seq<TripUpdate>>, writeLost: Option<nat>, purgeLost: Option<nat>)

  predicate PurgeCommits(c: Cycle, retain: int) {
    c.updates.Some? && retain > 0 && (c.purgeLost.None? || c.purgeLost.value >= 2)
  }

  function AddedBy(isJsonb: string -> bool, c: Cycle): seq<StoredRow> {
    if c.updates.None? then [] else Added(isJsonb, c.updates.value, c.writeLost)
  }

  function AfterCycle(isJsonb: string -> bool, table: seq<StoredRow>, c: Cycle, retain: int): seq<StoredRow> {
    var written := table + AddedBy(isJsonb, c);
    if PurgeCommits(c, retain) then Purged(written, retain) else written
  }

  function AfterCycles(isJsonb: string -> bool, table: seq<StoredRow>, cycles: seq<Cycle>, retain: int): seq<StoredRow> {
    if cycles == [] then table
    else AfterCycle(isJsonb, AfterCycles(isJsonb, table, cycles[..|cycles| - 1], retain), cycles[|cycles| - 1], retain)
  }

  /** Everything the cycles have added, as if nothing were ever purged. */
  function History(isJsonb: string -> bool, table: seq<StoredRow>, cycles: seq<Cycle>): seq<StoredRow> {
    if cycles == [] then table
    else History(isJsonb, table, cycles[..|cycles| - 1]) + AddedBy(isJsonb, cycles[|cycles| - 1])
  }

  // Which rows stay

  function Newer(times: set<int>, t: int): set<int> {
    set u | u in times && u > t
  }

  /** Fewer than retain of the times are newer. */
  predicate Recent(times: set<int>, retain: int, t: int) {
    |Newer(times, t)| < retain
  }

  function OnlyRecent(rows: seq<StoredRow>, times: set<int>, retain: int): seq<StoredRow> {
    if rows == [] then []
    else
      var last := rows[|rows| - 1];
      OnlyRecent(rows[..|rows| - 1], times, retain) + if Recent(times, retain, last.time) then [last] else []
  }

  lemma NewerWithHead(head: int, times: set<int>, t: int)
    requires head !in times && t < head
    ensures |Newer({head} + times, t)| == 1 + |Newer(times, t)|
  {
    assert Newer({head} + times, t) == {head} + Newer(times, t);
  }

  lemma NothingNewer(times: set<int>, t: int)
    requires forall u :: u in times ==> u <= t
    ensures |Newer(times, t)| == 0
  {
    assert Newer(times, t) == {};
  }

  lemma {:induction false} NewerThanPlace(times: seq<int>, k: nat)
    requires Descending(times) && k < |times|
    ensures |Newer(ToSet(times), times[k])| == k
  {
    if k == 0 {
      NothingNewer(ToSet(times), times[0]);
    } else {
      HeadAbove(times);
      NewerThanPlace(times[1..], k - 1);
      SetOfCons(times);
      NewerWithHead(times[0], ToSet(times[1..]), times[k]);
    }
  }

  /** Not being before the cutoff is having fewer than retain newer times. */
  lemma CutoffIsRecent(times: seq<int>, retain: int, t: int)
    requires Descending(times) && retain > 0 && t in times
    ensures !(t < times[Min(retain, |times|) - 1]) <==> Recent(ToSet(times), retain, t)
  {
    var k :| 0 <= k < |times| && times[k] == t;
    NewerThanPlace(times, k);
  }

  lemma {:induction false} NotBeforeIsRecent(rows: seq<StoredRow>, cutoff: int, times: set<int>, retain: int)
    requires forall r :: r in rows ==> (!(r.time < cutoff) <==> Recent(times, retain, r.time))
    ensures NotBefore(rows, cutoff) == OnlyRecent(rows, times, retain)
  {
    if rows != [] {
      assert rows[|rows| - 1] in rows;
      NotBeforeIsRecent(rows[..|rows| - 1], cutoff, times, retain);
    }
  }

  lemma NoTimesNoRows(rows: seq<StoredRow>)
    ensures rows == [] <==> DistinctTimes(rows) == []
  {
    if rows != [] {
      assert rows[0].time in Times(rows);
      assert rows[0].time in ToSet(DistinctTimes(rows));
    }
  }

  /** The purge keeps, in order, exactly the rows whose time has fewer than retain newer times in the table. */
  lemma PurgeKeepsRecent(rows: seq<StoredRow>, retain: int)
    requires retain > 0
    ensures Purged(rows, retain) == OnlyRecent(rows, Times(rows), retain)
  {
    var times := DistinctTimes(rows);
    if times == [] {
      NoTimesNoRows(rows);
    } else {
      forall r | r in rows
        ensures !(r.time < times[Min(retain, |times|) - 1]) <==> Recent(Times(rows), retain, r.time)
      {
        assert r.time in ToSet(times);
        CutoffIsRecent(times, retain, r.time);
      }
      NotBeforeIsRecent(rows, times[Min(retain, |times|) - 1], Times(rows), retain);
    }
  }

  lemma {:induction false} OnlyRecentMembers(rows: seq<StoredRow>, times: set<int>, retain: int, r: StoredRow)
    ensures r in OnlyRecent(rows, times, retain) <==> r in rows && Recent(times, retain, r.time)
  {
    if rows != [] {
      TakeOneMore(rows, |rows| - 1);
      FullSlices(rows);
      OnlyRecentMembers(rows[..|rows| - 1], times, retain, r);
    }
  }

  function RecentTimes(times: set<int>, retain: int): set<int> {
    set t | t in times && Recent(times, retain, t)
  }

  lemma TimesOfRecent(rows: seq<StoredRow>, times: set<int>, retain: int)
    ensures Times(OnlyRecent(rows, times, retain)) == set t | t in Times(rows) && Recent(times, retain, t)
  {
    var kept := OnlyRecent(rows, times, retain);
    forall t ensures t in Times(kept) <==> t in Times(rows) && Recent(times, retain, t) {
      forall r: StoredRow | r.time == t ensures r in kept <==> r in rows && Recent(times, retain, t) {
        OnlyRecentMembers(rows, times, retain, r);
      }
    }
  }

  // Purging again and again

  lemma SmallerSet(a: set<int>, b: set<int>)
    requires a <= b
    ensures |a| <= |b|
  {
    assert b == a + (b - a);
  }

  lemma NewerOfMore(a: set<int>, b: set<int>, t: int)
    requires a <= b
    ensures |Newer(a, t)| <= |Newer(b, t)|
  {
    SmallerSet(Newer(a, t), Newer(b, t));
  }

  lemma SomeMember(times: set<int>)
    ensures times == {} || exists t :: t in times
  {
    assert (forall t :: t !in times) ==> times == {};
  }

  lemma {:induction false} Newest(times: set<int>) returns (t: int)
    requires times != {}
    ensures t in times && forall u :: u in times ==> u <= t
  {
    SomeMember(times);
    var x: int :| x in times;
    t := x;
    if times != {x} {
      var y := Newest(times - {x});
      t := Max(x, y);
      assert forall u :: u in times ==> u == x || u in times - {x};
    }
  }

  /** A time that is not recent has retain recent times above it. */
  lemma RecentAboveStale(times: set<int>, retain: int, t: int)
    requires t in times && !Recent(times, retain, t)
    ensures |Newer(RecentTimes(times, retain), t)| >= retain
  {
    var stale := times - RecentTimes(times, retain);
    assert t in stale;
    var top := Newest(stale);
    assert !Recent(times, retain, top);
    forall u | u in Newer(times, top) ensures u in Newer(RecentTimes(times, retain), t) {
      assert u !in stale;
    }
    SmallerSet(Newer(times, top), Newer(RecentTimes(times, retain), t));
  }

  /** Dropping the times that are not recent does not change which times are recent, whatever is added. */
  lemma RecentAmongKept(times: set<int>, more: set<int>, retain: int, t: int)
    ensures Recent(RecentTimes(times, retain) + more, retain, t) <==> Recent(times + more, retain, t)
  {
    var kept, all := RecentTimes(times, retain) + more, times + more;
    NewerOfMore(kept, all, t);
    if Recent(kept, retain, t) && Newer(kept, t) != Newer(all, t) {
      assert Newer(kept, t) <= Newer(all, t);
      var u :| u in Newer(all, t) && u !in Newer(kept, t);
      RecentAboveStale(times, retain, u);
      SmallerSet(Newer(RecentTimes(times, retain), u), Newer(kept, t));
    }
  }

  lemma {:induction false} OnlyRecentAppend(a: seq<StoredRow>, b: seq<StoredRow>, times: set<int>, retain: int)
    ensures OnlyRecent(a + b, times, retain) == OnlyRecent(a, times, retain) + OnlyRecent(b, times, retain)
  {
    if b == [] {
      assert a + b == a;
    } else {
      var last := b[|b| - 1];
      assert (a + b)[..|a + b| - 1] == a + b[..|b| - 1];
      OnlyRecentAppend(a, b[..|b| - 1], times, retain);
      AppendAssociative(OnlyRecent(a, times, retain), OnlyRecent(b[..|b| - 1], times, retain),
                        if Recent(times, retain, last.time) then [last] else []);
    }
  }

  lemma OnlyRecentOneMore(rows: seq<StoredRow>, r: StoredRow, times: set<int>, retain: int)
    ensures OnlyRecent(rows + [r], times, retain)
         == OnlyRecent(rows, times, retain) + if Recent(times, retain, r.time) then [r] else []
  {
    assert (rows + [r])[..|rows|] == rows;
  }

  /** Filtering by a set of times and then by a larger one is filtering by the larger one. */
  lemma {:induction false} OnlyRecentTwice(rows: seq<StoredRow>, times: set<int>, more: set<int>, retain: int)
    ensures OnlyRecent(OnlyRecent(rows, times, retain), times + more, retain) == OnlyRecent(rows, times + more, retain)
  {
    if rows != [] {
      var last := rows[|rows| - 1];
      OnlyRecentTwice(rows[..|rows| - 1], times, more, retain);
      NewerOfMore(times, times + more, last.time);
      var kept := OnlyRecent(rows[..|rows| - 1], times, retain);
      OnlyRecentOneMore(kept, last, times + more, retain);
      assert kept + [] == kept;
    }
  }

  lemma {:induction false} OnlyRecentSame(rows: seq<StoredRow>, a: set<int>, b: set<int>, retain: int)
    requires forall t :: Recent(a, retain, t) <==> Recent(b, retain, t)
    ensures OnlyRecent(rows, a, retain) == OnlyRecent(rows, b, retain)
  {
    if rows != [] {
      OnlyRecentSame(rows[..|rows| - 1], a, b, retain);
    }
  }

  lemma TimesOfAppend(a: seq<StoredRow>, b: seq<StoredRow>)
    ensures Times(a + b) == Times(a) + Times(b)
  {
    forall t ensures t in Times(a + b) <==> t in Times(a) + Times(b) {
      if t in Times(a) {
        var r :| r in a && r.time == t;
        assert r in a + b;
      }
      if t in Times(b) {
        var r :| r in b && r.time == t;
        assert r in a + b;
      }
    }
  }

  /** A purge in between makes no difference to a later purge, whatever rows came in the meantime. */
  lemma EarlierPurgeAbsorbed(rows: seq<StoredRow>, more: seq<StoredRow>, retain: int)
    requires retain > 0
    ensures Purged(Purged(rows, retain) + more, retain) == Purged(rows + more, retain)
  {
    var times, fresher := Times(rows), Times(more);
    var kept := OnlyRecent(rows, times, retain);
    PurgeKeepsRecent(rows, retain);
    PurgeKeepsRecent(kept + more, retain);
    PurgeKeepsRecent(rows + more, retain);
    TimesOfAppend(rows, more);
    TimesOfAppend(kept, more);
    TimesOfRecent(rows, times, retain);
    assert Times(kept) == RecentTimes(times, retain);
    forall t ensures Recent(Times(kept) + fresher, retain, t) <==> Recent(times + fresher, retain, t) {
      RecentAmongKept(times, fresher, retain, t);
    }
    OnlyRecentSame(kept + more, Times(kept) + fresher, times + fresher, retain);
    OnlyRecentAppend(kept, more, times + fresher, retain);
    OnlyRecentAppend(rows, more, times + fresher, retain);
    OnlyRecentTwice(rows, times, fresher, retain);
  }

  /** Purging twice is purging once. */
  lemma PurgeIdempotent(rows: seq<StoredRow>, retain: int)
    requires retain > 0
    ensures Purged(Purged(rows, retain), retain) == Purged(rows, retain)
  {
    EarlierPurgeAbsorbed(rows, [], retain);
    assert Purged(rows, retain) + [] == Purged(rows, retain) && rows + [] == rows;
  }

  /** After a purge, the distinct times left are the newest retain, or all of them if there are no more. */
  lemma PurgeLeavesAtMost(rows: seq<StoredRow>, retain: int)
    requires retain > 0
    ensures Times(Purged(rows, retain)) == RecentTimes(Times(rows), retain)
    ensures |Times(Purged(rows, retain))| == Min(retain, |Times(rows)|)
  {
    PurgeKeepsRecent(rows, retain);
    TimesOfRecent(rows, Times(rows), retain);
    CountRecent(DistinctTimes(rows), retain);
  }

  lemma CountRecent(times: seq<int>, retain: int)
    requires Descending(times) && retain > 0
    ensures |RecentTimes(ToSet(times), retain)| == Min(retain, |ToSet(times)|)
  {
    var n := Min(retain, |times|);
    SizeOfDescending(times);
    SizeOfDescending(times[..n]);
    forall t ensures t in RecentTimes(ToSet(times), retain) <==> t in ToSet(times[..n]) {
      if t in times {
        var k :| 0 <= k < |times| && times[k] == t;
        NewerThanPlace(times, k);
        assert t in times[..n] <==> k < n;
      }
    }
    assert RecentTimes(ToSet(times), retain) == ToSet(times[..n]);
  }

  lemma {:induction false} SizeOfDescending(times: seq<int>)
    requires Descending(times)
    ensures |ToSet(times)| == |times|
  {
    if times != [] {
      HeadAbove(times);
      SizeOfDescending(times[1..]);
      SetOfCons(times);
    }
  }

  // Over runs of fetch cycles

  lemma {:induction false} HistoryPurged(isJsonb: string -> bool, table: seq<StoredRow>, cycles: seq<Cycle>, retain: int)
    requires retain > 0
    ensures Purged(AfterCycles(isJsonb, table, cycles, retain), retain) == Purged(History(isJsonb, table, cycles), retain)
  {
    if cycles != [] {
      var fewer, last := cycles[..|cycles| - 1], cycles[|cycles| - 1];
      var before, added := AfterCycles(isJsonb, table, fewer, retain), AddedBy(isJsonb, last);
      HistoryPurged(isJsonb, table, fewer, retain);
      EarlierPurgeAbsorbed(before, added, retain);
      EarlierPurgeAbsorbed(History(isJsonb, table, fewer), added, retain);
      PurgeIdempotent(before + added, retain);
    }
  }

  /**
   After any run of fetch cycles, with fetches, writes and purges that fail here and there, the first
   purge that commits leaves exactly the rows that one purge of everything ever stored would leave: those
   of the newest retain feed times, of which there are then at most retain.
   */
  lemma CommittedPurgeCatchesUp(isJsonb: string -> bool, table: seq<StoredRow>, cycles: seq<Cycle>, retain: int)
    requires cycles != [] && PurgeCommits(cycles[|cycles| - 1], retain)
    ensures var end, all := AfterCycles(isJsonb, table, cycles, retain), History(isJsonb, table, cycles);
            && end == OnlyRecent(all, Times(all), retain)
            && |Times(end)| == Min(retain, |Times(all)|)
  {
    var end, all := AfterCycles(isJsonb, table, cycles, retain), History(isJsonb, table, cycles);
    var before := AfterCycles(isJsonb, table, cycles[..|cycles| - 1], retain);
    HistoryPurged(isJsonb, table, cycles, retain);
    PurgeIdempotent(before + AddedBy(isJsonb, cycles[|cycles| - 1]), retain);
    PurgeKeepsRecent(all, retain);
    PurgeLeavesAtMost(all, retain);
  }
}
