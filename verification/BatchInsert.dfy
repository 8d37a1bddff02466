/** Writing a batch of trip updates, each row under a savepoint of its own. */
module BatchInsert {
  import opened Prelude
  import opened Transactions

  /** A value of the row's dictionary: no such key, None, or a value. */
  datatype Field<T> = Missing | Null | Given(value: T)

  /** The raw entry as json.dumps sees it. */
  datatype Raw = NoRaw | Json(text: string) | NotSerialisable

  datatype TripUpdate = TripUpdate(time: Field<int>, tripId: Field<string>, columns: Columns, raw: Raw)

  function ToOption<T>(f: Field<T>): Option<T>
    requires !f.Missing?
  {
    if f.Null? then None else Some(f.value)
  }

  /** The values to insert, or None if building them raises. */
  function ValuesOf(u: TripUpdate): Option<Values> {
    if u.time.Missing? || u.tripId.Missing? || u.raw.NotSerialisable? then None
    else
      var text := if u.raw.NoRaw? then "{}" else u.raw.text;
      Some(Values(ToOption(u.time), ToOption(u.tripId), u.columns.(raw := text)))
  }

  predicate Insertable(isJsonb: string -> bool, u: TripUpdate) {
    ValuesOf(u).Some? && Accepted(isJsonb, ValuesOf(u).value)
  }

  function StoredOf(isJsonb: string -> bool, u: TripUpdate): StoredRow
    requires Insertable(isJsonb, u)
  {
    var v := ValuesOf(u).value;
    StoredRow(v.time.value, v.tripId.value, v.columns)
  }

  /** A plain filter: the insertable rows, in order. */
  function Inserted(isJsonb: string -> bool, updates: seq<TripUpdate>): seq<StoredRow> {
    if updates == [] then []
    else
      var last := updates[|updates| - 1];
      Inserted(isJsonb, updates[..|updates| - 1])
      + if Insertable(isJsonb, last) then [StoredOf(isJsonb, last)] else []
  }

  function RowStatements(u: TripUpdate): nat {
    if ValuesOf(u).None? then 2 else 3
  }

  function LoopStatements(updates: seq<TripUpdate>): nat {
    if updates == [] then 0 else LoopStatements(updates[..|updates| - 1]) + RowStatements(updates[|updates| - 1])
  }

  /** The statements a whole write executes, with its commit. */
  function Statements(isJsonb: string -> bool, updates: seq<TripUpdate>): nat {
    LoopStatements(updates) + if Inserted(isJsonb, updates) == [] then 1 else 2
  }

  predicate Commits(isJsonb: string -> bool, updates: seq<TripUpdate>, lost: Option<nat>) {
    updates != [] && (lost.None? || lost.value >= Statements(isJsonb, updates))
  }

  /** The rows that a write leaves in the table. */
  function Added(isJsonb: string -> bool, updates: seq<TripUpdate>, lost: Option<nat>): seq<StoredRow> {
    if Commits(isJsonb, updates, lost) then Inserted(isJsonb, updates) else []
  }

  /** The notifications that a write sends. */
  function Notified(isJsonb: string -> bool, updates: seq<TripUpdate>, lost: Option<nat>): seq<string> {
    if Added(isJsonb, updates, lost) == [] then [] else ["gtfs_trip_updates"]
  }

  /** A transaction that is not aborted and has executed n statements without losing its connection. */
  ghost predicate Healthy(tx: Transaction, database: Database, rows: seq<StoredRow>, n: nat)
    reads tx
  {
    && tx.database == database && !tx.aborted && tx.notices == [] && tx.rows == rows && tx.executed == n
    && (tx.lost.Some? ==> tx.lost.value >= n)
  }

  /**
   The body of the loop: a row that cannot be built or that the table refuses is rolled back to its
   savepoint. Fails only if the connection is lost.
   */
  method InsertRow(tx: Transaction, i: nat, u: TripUpdate) returns (went: bool, failed: bool)
    requires Healthy(tx, tx.database, tx.rows, tx.executed)
    modifies tx
    ensures failed <==> tx.lost.Some? && tx.lost.value < old(tx.executed) + RowStatements(u)
    ensures !failed ==> (went <==> Insertable(tx.database.isJsonb, u))
    ensures !failed ==> Healthy(tx, tx.database,
                                old(tx.rows) + (if went then [StoredOf(tx.database.isJsonb, u)] else []),
                                old(tx.executed) + RowStatements(u))
  {
    went := false;
    var raised := tx.SetSavepoint(i);
    if !raised {
      var values := ValuesOf(u);
      raised := values.None?;
      if !raised {
        raised := tx.Insert(values.value);
        if !raised {
          raised := tx.Release(i);
        }
      }
    }
    failed := false;
    if raised {
      failed := tx.RollbackTo(i);
    } else {
      went := true;
    }
  }

  /**
   The table ends up as it was, followed by what a plain filter would keep, and one notification is sent
   if that is anything; if the connection is lost before the commit, nothing happens at all.
   */
  method WriteTripUpdates(database: Database, updates: seq<TripUpdate>, lost: Option<nat>)
    modifies database
    ensures database.table == old(database.table) + Added(database.isJsonb, updates, lost)
    ensures database.notifications == old(database.notifications) + Notified(database.isJsonb, updates, lost)
  {
    if updates == [] { return; }
    var inserted := 0;
    var tx := new Transaction(database, lost);
    for i := 0 to |updates|
      invariant database.table == old(database.table) && database.notifications == old(database.notifications)
      invariant fresh(tx) && tx.lost == lost
      invariant Healthy(tx, database, database.table + Inserted(database.isJsonb, updates[..i]),
                        LoopStatements(updates[..i]))
      invariant inserted == |Inserted(database.isJsonb, updates[..i])|
    {
      OneMoreUpdate(database.isJsonb, updates, i);
      LostInLoop(database.isJsonb, updates, i + 1);
      AppendAssociative(database.table, Inserted(database.isJsonb, updates[..i]),
                        if Insertable(database.isJsonb, updates[i]) then [StoredOf(database.isJsonb, updates[i])] else []);
      var went, failed := InsertRow(tx, i, updates[i]);
      if failed {
        return;
      }
      if went {
        inserted := inserted + 1;
      }
    }
    FullSlices(updates);
    if inserted > 0 {
      var raised := tx.Notify("gtfs_trip_updates");
      if raised { return; }
    }
    var raised := tx.Commit();
  }

  lemma OneMoreUpdate(isJsonb: string -> bool, updates: seq<TripUpdate>, n: nat)
    requires n < |updates|
    ensures LoopStatements(updates[..n + 1]) == LoopStatements(updates[..n]) + RowStatements(updates[n])
    ensures Inserted(isJsonb, updates[..n + 1])
         == Inserted(isJsonb, updates[..n])
            + if Insertable(isJsonb, updates[n]) then [StoredOf(isJsonb, updates[n])] else []
  {
    assert updates[..n + 1][..n] == updates[..n];
  }

  lemma {:induction false} LostInLoop(isJsonb: string -> bool, updates: seq<TripUpdate>, n: nat)
    requires n <= |updates|
    ensures LoopStatements(updates[..n]) <= LoopStatements(updates)
    decreases |updates| - n
  {
    if n == |updates| {
      FullSlices(updates);
    } else {
      OneMoreUpdate(isJsonb, updates, n);
      LostInLoop(isJsonb, updates, n + 1);
    }
  }

  // What the filter means

  /** An integer of a column of so many bits, or NULL. */
  ghost predicate NullOrBetween(value: Option<int>, low: int, high: int) {
    value.None? || low <= value.value <= high
  }

  /**
   An update is stored exactly when it has a time and a trip id, its direction is NULL or a 16-bit integer, its
   sequence and delays are NULL or 32-bit integers, and its raw entry, "{}" if absent, serialises to JSON that
   the column takes. The row stored has the update's own values.
   */
  lemma StoredExactlyWhen(isJsonb: string -> bool, u: TripUpdate)
    ensures Insertable(isJsonb, u)
            <==> && u.time.Given? && u.tripId.Given?
                 && NullOrBetween(u.columns.directionId, -32768, 32767)
                 && NullOrBetween(u.columns.stopSequence, -2147483648, 2147483647)
                 && NullOrBetween(u.columns.arrivalDelay, -2147483648, 2147483647)
                 && NullOrBetween(u.columns.departureDelay, -2147483648, 2147483647)
                 && ((u.raw.NoRaw? && isJsonb("{}")) || (u.raw.Json? && isJsonb(u.raw.text)))
    ensures Insertable(isJsonb, u)
            ==> var r := StoredOf(isJsonb, u);
                && r.time == u.time.value && r.tripId == u.tripId.value
                && r.columns.routeId == u.columns.routeId && r.columns.directionId == u.columns.directionId
                && r.columns.vehicleId == u.columns.vehicleId && r.columns.stopId == u.columns.stopId
                && r.columns.stopSequence == u.columns.stopSequence
                && r.columns.arrivalDelay == u.columns.arrivalDelay && r.columns.departureDelay == u.columns.departureDelay
                && r.columns.raw == if u.raw.Json? then u.raw.text else "{}"
  {
  }

  /** A single update: one row if it is insertable and the connection lasts its five statements, else none. */
  lemma SingleUpdate(isJsonb: string -> bool, u: TripUpdate, lost: Option<nat>)
    ensures Added(isJsonb, [u], lost)
            == if Insertable(isJsonb, u) && (lost.None? || lost.value >= 5) then [StoredOf(isJsonb, u)] else []
  {
    OneMoreUpdate(isJsonb, [u], 0);
    FullSlices([u]);
    assert LoopStatements([u][..0]) == 0 && Inserted(isJsonb, [u][..0]) == [];
  }

  lemma {:induction false} InsertedAppend(isJsonb: string -> bool, a: seq<TripUpdate>, b: seq<TripUpdate>)
    ensures Inserted(isJsonb, a + b) == Inserted(isJsonb, a) + Inserted(isJsonb, b)
  {
    if b == [] {
      assert a + b == a;
    } else {
      var last := b[|b| - 1];
      assert (a + b)[..|a + b| - 1] == a + b[..|b| - 1];
      InsertedAppend(isJsonb, a, b[..|b| - 1]);
      AppendAssociative(Inserted(isJsonb, a), Inserted(isJsonb, b[..|b| - 1]),
                        if Insertable(isJsonb, last) then [StoredOf(isJsonb, last)] else []);
    }
  }

  /** A bad row only rolls back itself: the batch ends up as if the row had not been in it. */
  lemma BadRowIsOnlyItself(isJsonb: string -> bool, a: seq<TripUpdate>, bad: TripUpdate, b: seq<TripUpdate>)
    requires !Insertable(isJsonb, bad)
    ensures Inserted(isJsonb, a + [bad] + b) == Inserted(isJsonb, a + b)
  {
    InsertedAppend(isJsonb, a + [bad], b);
    InsertedAppend(isJsonb, a, [bad]);
    InsertedAppend(isJsonb, a, b);
    assert [bad][..0] == [];
    assert Inserted(isJsonb, [bad]) == [];
  }

  /** Nothing is lost or made up: every insertable update is stored once for each time it occurs. */
  lemma {:induction false} StoredOnceEach(isJsonb: string -> bool, updates: seq<TripUpdate>, row: StoredRow)
    ensures multiset(Inserted(isJsonb, updates))[row] == Occurrences(isJsonb, updates, row)
  {
    if updates != [] {
      var last := updates[|updates| - 1];
      StoredOnceEach(isJsonb, updates[..|updates| - 1], row);
    }
  }

  function Occurrences(isJsonb: string -> bool, updates: seq<TripUpdate>, row: StoredRow): nat {
    if updates == [] then 0
    else
      var last := updates[|updates| - 1];
      Occurrences(isJsonb, updates[..|updates| - 1], row)
      + if Insertable(isJsonb, last) && StoredOf(isJsonb, last) == row then 1 else 0
  }
}
