/** The stored procedure as a transaction on shared rows: straight-line code with local variables,
    other sessions committing whatever they like between its SELECT and its UPDATE. */
module DecrementInventory {
  import opened Common
  import opened Inventory

  class InventoryTable {
    var rows: seq<Row>
    var log: seq<LogEntry>
    const signedDiff: bool

    ghost const start: Table
    ghost var history: seq<Event>

    /** The rows and the log are what the committed calls and cleanups give one after the other. */
    ghost predicate Serial()
      reads this
    {
      && Replay(start, history, signedDiff) == Table(rows, log)
      && OutcomesAgree(start, history, signedDiff)
    }

    constructor (rows: seq<Row>, signedDiff: bool)
      ensures Serial() && history == [] && start == Table(rows, []) && this.signedDiff == signedDiff
    {
      this.rows, log := rows, [];
      this.signedDiff := signedDiff;
      start, history := Table(rows, []), [];
    }

    ghost method Record(e: Event)
      requires Replay(start, history, signedDiff) == Table(rows, log)
      requires OutcomesAgree(start, history, signedDiff)
      requires OutcomeAgrees(Table(rows, log), e, signedDiff)
      modifies this`history
      ensures history == old(history) + [e]
      ensures Replay(start, history, signedDiff) == TakeEffect(Table(rows, log), e, signedDiff)
      ensures OutcomesAgree(start, history, signedDiff)
    {
      ReplaySnoc(start, history, e, signedDiff);
      history := history + [e];
    }

    /** Another session's call or cleanup takes effect, or its call times out. */
    method OtherSession(wanted: Event)
      requires Serial()
      modifies this
      ensures Serial() && |history| == |old(history)| + 1 && old(history) <= history
      ensures Advances(Table(old(rows), old(log)), Table(rows, log))
    {
      hide Replay, OutcomesAgree;
      var t := Table(rows, log);
      var e :=
        match wanted
        case Call(c, quantity, expected, _) =>
          Call(c, quantity, expected, Isolated(t, quantity, expected, signedDiff).0)
        case TimedOut(c, quantity, expected, _) => TimedOut(c, quantity, expected, DATABASE_ERROR)
        case Cleanup(_) => wanted;
      Record(e);
      var t' := TakeEffect(t, e, signedDiff);
      rows, log := t'.rows, t'.log;
    }

    /** Other sessions commit any number of calls and cleanups. */
    method OtherSessions()
      requires Serial()
      modifies this
      ensures Serial() && old(history) <= history
      ensures Advances(Table(old(rows), old(log)), Table(rows, log))
    {
      hide Replay, OutcomesAgree;
      var burst: seq<Event> := *;
      for i := 0 to |burst|
        invariant Serial() && old(history) <= history
        invariant Advances(Table(old(rows), old(log)), Table(rows, log))
      {
        OtherSession(burst[i]);
      }
    }

    /** The row trigger: writes the audit entry, or fails. */
    method AfterUpdate(before: Row, after: Row) returns (ok: bool)
      modifies this`log
      ensures ok == Trigger(before, after, signedDiff).Some?
      ensures log == if ok then old(log) + [Trigger(before, after, signedDiff).value] else old(log)
    {
      var change := after.available as int - before.available as int;
      ok := (change >= 0 || signedDiff) && I32_MIN <= change <= I32_MAX;
      if ok {
        var operation := 0;
        if after.available < before.available {
          operation := 2;
        } else if after.available > before.available {
          operation := 1;
        }
        log := log + [LogEntry(operation, change, before.available, after.available)];
      }
    }

    /** The UPDATE statement; on an exception the handler's ROLLBACK leaves rows and log alone. */
    method Update(quantity: U32, expected: U32) returns (affectedRows: nat, failed: bool)
      requires |rows| <= 1
      modifies this`rows, this`log
      ensures var (result, after) := Finished(Table(old(rows), old(log)), quantity, expected, signedDiff);
              && Table(rows, log) == after
              && (failed <==> result == DATABASE_ERROR)
              && (affectedRows == 1 <==> result == SUCCESS)
    {
      affectedRows, failed := 0, false;
      if |rows| == 1 && rows[0].version == expected {
        var row := rows[0];
        failed := row.available < quantity || row.reserved + quantity > U32_MAX || row.version + 1 > U32_MAX;
        if !failed {
          var row' := row.(available := row.available - quantity, reserved := row.reserved + quantity,
                           version := row.version + 1);
          var logged := AfterUpdate(row, row');
          if logged {
            rows, affectedRows := [row'], 1;
          } else {
            failed := true;
          }
        }
      }
    }

    /** From the UPDATE to the COMMIT or ROLLBACK. The caller's SELECT has established, and Advances
        has kept, that the stock covers the quantity if the version is still the expected one. */
    method UpdateAndCommit(client: Client, quantity: U32, expected: U32) returns (result: int)
      requires Serial() && |rows| <= 1
      requires |rows| == 0 ==> expected == 0 && quantity == 0
      requires |rows| == 1 && rows[0].version == expected ==> rows[0].available >= quantity
      modifies this
      ensures Serial() && history == old(history) + [Call(client, quantity, expected, result)]
    {
      hide Replay, OutcomesAgree;
      var affectedRows, failed := Update(quantity, expected);
      result := if failed then DATABASE_ERROR else if affectedRows == 1 then SUCCESS else UPDATE_FAILED;
      ghost var t := Table(old(rows), old(log));
      assert SameOutcome(result, Isolated(t, quantity, expected, signedDiff).0);
      assert Isolated(t, quantity, expected, signedDiff).1 == Table(rows, log);
      ReplaySnoc(start, history, Call(client, quantity, expected, result), signedDiff);
      history := history + [Call(client, quantity, expected, result)];
    }

    /** The procedure. Whatever the other sessions do, the call takes effect at one instant `at` of
        the serial history, with the result it returns; all other events are the others'. If its
        UPDATE can time out waiting for the row lock, it may instead change nothing and return -1. */
    method Decrement(client: Client, quantity: U32, expected: U32, lockTimesOut: bool)
        returns (result: int, ghost at: nat)
      requires Serial()
      modifies this
      ensures Serial() && old(history) <= history
      ensures |old(history)| <= at < |history|
      ensures || history[at] == Call(client, quantity, expected, result)
              || (&& lockTimesOut && result == DATABASE_ERROR
                  && history[at] == TimedOut(client, quantity, expected, result))
    {
      hide Replay, OutcomesAgree;
      OtherSessions();
      var currentAvailable: U32, currentVersion: U32 := 0, 0;
      var several := false;
      if |rows| == 1 {
        currentAvailable, currentVersion := rows[0].available, rows[0].version;
      } else if |rows| > 1 {
        several := true;
      }
      if several || currentVersion != expected || currentAvailable < quantity {
        result := if several then DATABASE_ERROR
                  else if currentVersion != expected then VERSION_CONFLICT
                  else INSUFFICIENT;
        at := |history|;
        Record(Call(client, quantity, expected, result));
        OtherSessions();
        return;
      }
      OtherSessions();
      at := |history|;
      if lockTimesOut {
        result := DATABASE_ERROR;
        Record(TimedOut(client, quantity, expected, result));
      } else {
        result := UpdateAndCommit(client, quantity, expected);
      }
      OtherSessions();
    }
  }
}
