/**
 * A target table of the reporting database, reached through one pyodbc
 * connection with autocommit off. Statements run inside the connection's open
 * transaction and change what this connection sees (`working`); only a
 * commit makes that durable (`committed`), and a rollback throws it away.
 *
 * `Replace` is the protocol the three `load_*` functions share: skip an empty
 * frame, otherwise clear the table, insert every row with one `executemany`,
 * and commit; a database error at any step rolls back.
 */
module Warehouse {
  import opened Values
  import opened Frames

  /**
   * Which of a load's statements the database rejects with `pyodbc.Error`:
   * the clearing statement, the batch insert (beyond a wrong parameter count,
   * which is always rejected) and the commit.
   */
  datatype Faults = Faults(clear: bool, insert: bool, commit: bool)

  datatype LoadOutcome =
    | Skipped                          // empty frame: nothing was executed
    | Loaded(count: nat)               // committed `count` rows
    | RolledBack                       // a pyodbc.Error was caught and the transaction rolled back
    | ArityMismatch(found: nat)        // ValueError before executemany: never committed

  /** What a script's `__main__` ends with: a transform that raised, or the load's outcome. */
  datatype RunOutcome = TransformFailed(error: Error) | Finished(load: LoadOutcome)

  /** Whether a load reached its commit, as a function of its input and the database's behaviour. */
  predicate Succeeds(f: Frame, insertColumns: seq<string>, arityCheck: Option<nat>, faults: Faults) {
    && !IsEmpty(f)
    && !faults.clear
    && !FailsArityCheck(f, arityCheck)
    && !faults.insert
    && (forall i :: 0 <= i < |f.rows| ==> |f.rows[i]| == |insertColumns|)
    && !faults.commit
  }

  /** The fact loader's diagnostic: only the first tuple's length is compared with the expected count. */
  predicate FailsArityCheck(f: Frame, arityCheck: Option<nat>) {
    arityCheck.Some? && |f.rows| > 0 && |f.rows[0]| != arityCheck.value
  }

  class Table {
    var committed: seq<Row>
    var working: seq<Row>

    /** No transaction holds uncommitted changes. */
    ghost predicate Idle()
      reads this
    {
      working == committed
    }

    constructor (contents: seq<Row>)
      ensures committed == contents && Idle()
    {
      committed := contents;
      working := contents;
    }

    /** `DELETE FROM t` or `TRUNCATE TABLE t` inside the open transaction. */
    method Clear(fails: bool) returns (ok: bool)
      modifies this`working
      ensures ok == !fails
      ensures working == if ok then [] else old(working)
    {
      ok := !fails;
      if ok {
        working := [];
      }
    }

    /**
     * `cursor.executemany(INSERT INTO t (insertColumns) VALUES (?, ...), batch)`:
     * every tuple must supply one parameter per placeholder, else the driver
     * raises and the statement has no effect.
     */
    method ExecuteMany(insertColumns: seq<string>, batch: seq<Row>, fails: bool) returns (ok: bool)
      modifies this`working
      ensures ok <==> !fails && forall i :: 0 <= i < |batch| ==> |batch[i]| == |insertColumns|
      ensures working == if ok then old(working) + batch else old(working)
    {
      ok := !fails && forall i :: 0 <= i < |batch| ==> |batch[i]| == |insertColumns|;
      if ok {
        working := working + batch;
      }
    }

    /** `cnxn.commit()`. */
    method Commit(fails: bool) returns (ok: bool)
      modifies this`committed
      ensures ok == !fails
      ensures committed == if ok then working else old(committed)
    {
      ok := !fails;
      if ok {
        committed := working;
      }
    }

    /** `cnxn.rollback()`, or the server discarding an uncommitted transaction when the connection goes away. */
    method Rollback()
      modifies this`working
      ensures working == committed
    {
      working := committed;
    }

    /**
     * Replace the table's contents with the frame's rows, all or nothing.
     * `arityCheck` is the fact loader's pre-insert check of the first tuple.
     */
    method Replace(f: Frame, insertColumns: seq<string>, arityCheck: Option<nat>, faults: Faults)
      returns (outcome: LoadOutcome)
      requires Idle()
      modifies this
      ensures Idle()
      ensures IsEmpty(f) ==> outcome == Skipped
      ensures outcome.Loaded? <==> Succeeds(f, insertColumns, arityCheck, faults)
      ensures outcome.Loaded? ==> committed == f.rows && outcome.count == |f.rows|
      ensures !outcome.Loaded? ==> committed == old(committed)
      ensures outcome.ArityMismatch? <==> !IsEmpty(f) && !faults.clear && FailsArityCheck(f, arityCheck)
    {
      if IsEmpty(f) {
        return Skipped;
      }
      var ok := Clear(faults.clear);
      if !ok {
        Rollback();
        return RolledBack;
      }
      var data := f.rows;
      if arityCheck.Some? && |data| > 0 && |data[0]| != arityCheck.value {
        Rollback();
        return ArityMismatch(|data[0]|);
      }
      ok := ExecuteMany(insertColumns, data, faults.insert);
      if !ok {
        Rollback();
        return RolledBack;
      }
      ok := Commit(faults.commit);
      if !ok {
        Rollback();
        return RolledBack;
      }
      return Loaded(|data|);
    }
  }
}
