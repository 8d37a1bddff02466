/**
 PostgreSQL transactions over the trip update table: a failed statement aborts the transaction until it
 is rolled back, to a savepoint or altogether, and the commit of an aborted transaction is a rollback.
 */
module Transactions {
  import opened Prelude

  datatype Columns = Columns(
    routeId: Option<string>, directionId: Option<int>, vehicleId: Option<string>, stopId: Option<string>,
    stopSequence: Option<int>, arrivalDelay: Option<int>, departureDelay: Option<int>, raw: string)

  datatype StoredRow = StoredRow(time: int, tripId: string, columns: Columns)

  /** The values of an INSERT, where SQL NULL is None. */
  datatype Values = Values(time: Option<int>, tripId: Option<string>, columns: Columns)

  predicate FitsIn(value: Option<int>, bits: nat)
    requires bits == 16 || bits == 32
  {
    var bound := if bits == 16 then 0x8000 else 0x8000_0000;
    value.Some? ==> -bound <= value.value < bound
  }

  /** The constraints of the table; isJsonb says which texts the raw column takes. */
  predicate Accepted(isJsonb: string -> bool, v: Values) {
    && v.time.Some? && v.tripId.Some?
    && FitsIn(v.columns.directionId, 16) && FitsIn(v.columns.stopSequence, 32)
    && FitsIn(v.columns.arrivalDelay, 32) && FitsIn(v.columns.departureDelay, 32)
    && isJsonb(v.columns.raw)
  }

  datatype Savepoint = Savepoint(name: nat, rows: seq<StoredRow>, notices: seq<string>)

  class Database {
    const isJsonb: string -> bool
    var table: seq<StoredRow>
    var notifications: seq<string>

    constructor (isJsonb: string -> bool)
      ensures this.isJsonb == isJsonb && table == [] && notifications == []
    {
      this.isJsonb, table, notifications := isJsonb, [], [];
    }
  }

  function NameOf(savepoint: Savepoint): nat {
    savepoint.name
  }

  /** Depth of the stack below the newest savepoint of this name. */
  function FindSavepoint(savepoints: seq<Savepoint>, name: nat): (at: Option<nat>)
    ensures at.Some? ==> at.value < |savepoints| && savepoints[at.value].name == name
    ensures at.Some? ==> forall k :: at.value < k < |savepoints| ==> savepoints[k].name != name
    ensures at.None? ==> forall k :: 0 <= k < |savepoints| ==> savepoints[k].name != name
  {
    LastIndex(NameOf, savepoints, name)
  }

  /** One transaction on a pooled connection that is lost before its statement number lost, if that is given. */
  class Transaction {
    const database: Database
    const lost: Option<nat>
    var rows: seq<StoredRow>
    var notices: seq<string>
    var savepoints: seq<Savepoint>
    var aborted: bool
    var executed: nat

    constructor (database: Database, lost: Option<nat>)
      ensures this.database == database && this.lost == lost
      ensures rows == database.table && notices == [] && savepoints == [] && !aborted && executed == 0
    {
      this.database, this.lost := database, lost;
      rows, notices, savepoints, aborted, executed := database.table, [], [], false, 0;
    }

    predicate Gone()
      reads this`executed
    {
      lost.Some? && executed >= lost.value
    }

    method SetSavepoint(name: nat) returns (raised: bool)
      modifies this`savepoints, this`executed
      ensures raised <==> old(Gone()) || aborted
      ensures savepoints == old(savepoints) + if raised then [] else [Savepoint(name, rows, notices)]
      ensures executed == old(executed) + 1
    {
      raised := Gone() || aborted;
      executed := executed + 1;
      if !raised {
        savepoints := savepoints + [Savepoint(name, rows, notices)];
      }
    }

    method Insert(values: Values) returns (raised: bool)
      modifies this`rows, this`aborted, this`executed
      ensures raised <==> old(Gone() || aborted) || !Accepted(database.isJsonb, values)
      ensures aborted <==> old(aborted) || (!old(Gone()) && !Accepted(database.isJsonb, values))
      ensures rows == old(rows) + if raised then []
                                  else [StoredRow(values.time.value, values.tripId.value, values.columns)]
      ensures executed == old(executed) + 1
    {
      raised := Gone() || aborted;
      executed := executed + 1;
      if !raised {
        if Accepted(database.isJsonb, values) {
          rows := rows + [StoredRow(values.time.value, values.tripId.value, values.columns)];
        } else {
          raised, aborted := true, true;
        }
      }
    }

    method Release(name: nat) returns (raised: bool)
      modifies this`savepoints, this`aborted, this`executed
      ensures raised <==> old(Gone() || aborted) || FindSavepoint(old(savepoints), name).None?
      ensures aborted <==> old(aborted) || (!old(Gone()) && raised)
      ensures savepoints == if raised then old(savepoints)
                            else old(savepoints)[..FindSavepoint(old(savepoints), name).value]
      ensures executed == old(executed) + 1
    {
      raised := Gone() || aborted;
      executed := executed + 1;
      if !raised {
        var at := FindSavepoint(savepoints, name);
        if at.Some? {
          savepoints := savepoints[..at.value];
        } else {
          raised, aborted := true, true;
        }
      }
    }

    /** The savepoint itself stays on the stack. */
    method RollbackTo(name: nat) returns (raised: bool)
      modifies this
      ensures raised <==> old(Gone()) || FindSavepoint(old(savepoints), name).None?
      ensures if raised then rows == old(rows) && notices == old(notices) && savepoints == old(savepoints)
              else var at := FindSavepoint(old(savepoints), name).value;
                   var saved := old(savepoints)[at];
                   !aborted && rows == saved.rows && notices == saved.notices
                   && savepoints == old(savepoints)[..at + 1]
      ensures raised ==> (aborted <==> old(aborted) || !old(Gone()))
      ensures executed == old(executed) + 1
    {
      raised := Gone();
      executed := executed + 1;
      if !raised {
        var at := FindSavepoint(savepoints, name);
        if at.Some? {
          rows, notices, aborted := savepoints[at.value].rows, savepoints[at.value].notices, false;
          savepoints := savepoints[..at.value + 1];
        } else {
          raised, aborted := true, true;
        }
      }
    }

    /** Notifications are sent when the transaction commits. */
    method Notify(payload: string) returns (raised: bool)
      modifies this`notices, this`executed
      ensures raised <==> old(Gone()) || aborted
      ensures notices == old(notices) + if raised then [] else [payload]
      ensures executed == old(executed) + 1
    {
      raised := Gone() || aborted;
      executed := executed + 1;
      if !raised {
        notices := notices + [payload];
      }
    }

    method Replace(newRows: seq<StoredRow>) returns (raised: bool)
      modifies this`rows, this`executed
      ensures raised <==> old(Gone()) || aborted
      ensures rows == if raised then old(rows) else newRows
      ensures executed == old(executed) + 1
    {
      raised := Gone() || aborted;
      executed := executed + 1;
      if !raised {
        rows := newRows;
      }
    }

    method Commit() returns (raised: bool)
      modifies this`executed, database
      ensures raised <==> old(Gone())
      ensures if raised || aborted
              then database.table == old(database.table) && database.notifications == old(database.notifications)
              else database.table == rows && database.notifications == old(database.notifications) + notices
      ensures executed == old(executed) + 1
    {
      raised := Gone();
      executed := executed + 1;
      if !raised && !aborted {
        database.table, database.notifications := rows, database.notifications + notices;
      }
    }
  }
}
