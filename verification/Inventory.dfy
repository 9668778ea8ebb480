/** The stock rows of one product, the optimistic-lock procedure DecrementInventory split into
    the statements other sessions can see, and the audit trigger. */
module Inventory {
  import opened Common

  const U32_MAX: nat := 0xffff_ffff
  const I32_MIN: int := -0x8000_0000
  const I32_MAX: int := 0x7fff_ffff

  type U32 = x: nat | x <= U32_MAX

  datatype Row = Row(total: U32, available: U32, reserved: U32, sold: U32, version: U32)

  datatype LogEntry = LogEntry(operation: nat, change: int, before: nat, after: nat)

  /** The product's rows (one per warehouse) and the audit entries of its updates. */
  datatype Table = Table(rows: seq<Row>, log: seq<LogEntry>)

  // p_result
  const SUCCESS := 0
  const VERSION_CONFLICT := 1
  const INSUFFICIENT := 2
  const UPDATE_FAILED := 3
  const DATABASE_ERROR := -1

  /** The trigger. With `signedDiff` (sql_mode NO_UNSIGNED_SUBTRACTION) NEW - OLD is signed;
      without it a negative difference of unsigned columns is an error, which fails the UPDATE. */
  function Trigger(before: Row, after: Row, signedDiff: bool): Option<LogEntry> {
    var change := after.available as int - before.available as int;
    if (change < 0 && !signedDiff) || change < I32_MIN || I32_MAX < change then None
    else
      var operation :=
        if after.available < before.available then 2
        else if after.available > before.available then 1
        else 0;
      Some(LogEntry(operation, change, before.available, after.available))
  }

  /** The UPDATE of the procedure on a matching row; None is an SQL exception (a column out of range). */
  function Decremented(row: Row, quantity: U32, signedDiff: bool): Option<(Row, LogEntry)> {
    if row.available < quantity || row.reserved + quantity > U32_MAX || row.version + 1 > U32_MAX then None
    else
      var row' := row.(available := row.available - quantity, reserved := row.reserved + quantity,
                       version := row.version + 1);
      match Trigger(row, row', signedDiff)
      case None => None
      case Some(entry) => Some((row', entry))
  }

  /** The cleanup event's UPDATE: returns reserved stock, and does not touch the version. */
  function Restored(t: Table, quantity: U32, signedDiff: bool): Table {
    if |t.rows| != 1 then t
    else
      var row := t.rows[0];
      if row.available + quantity > U32_MAX || row.reserved < quantity then t
      else
        var row' := row.(available := row.available + quantity, reserved := row.reserved - quantity);
        match Trigger(row, row', signedDiff)
        case None => t
        case Some(entry) => Table([row'], t.log + [entry])
  }

  // ---------------------------------------------------------------- one call on its own

  /** What SELECT ... INTO leaves in current_available and current_version: the declared zeros when
      no row matches, an exception when several do. */
  function Selected(t: Table): Option<(U32, U32)> {
    if |t.rows| == 0 then Some((0, 0))
    else if |t.rows| == 1 then Some((t.rows[0].available, t.rows[0].version))
    else None
  }

  /** The result decided right after the SELECT, or None when the call goes on to its UPDATE. */
  function Decided(t: Table, quantity: U32, expected: U32): Option<int> {
    match Selected(t)
    case None => Some(DATABASE_ERROR)
    case Some((available, version)) =>
      if version != expected then Some(VERSION_CONFLICT)
      else if available < quantity then Some(INSUFFICIENT)
      else None
  }

  /** The UPDATE, ROW_COUNT test and COMMIT or ROLLBACK. */
  function Finished(t: Table, quantity: U32, expected: U32, signedDiff: bool): (int, Table) {
    if |t.rows| == 1 && t.rows[0].version == expected then
      match Decremented(t.rows[0], quantity, signedDiff)
      case None => (DATABASE_ERROR, t)
      case Some((row, entry)) => (SUCCESS, Table([row], t.log + [entry]))
    else (UPDATE_FAILED, t)
  }

  /** DecrementInventory run with no other session active. */
  function Isolated(t: Table, quantity: U32, expected: U32, signedDiff: bool): (int, Table) {
    match Decided(t, quantity, expected)
    case Some(result) => (result, t)
    case None => Finished(t, quantity, expected, signedDiff)
  }

  /** When a call on its own succeeds: the caller's version is current, the stock covers the
      quantity, no column overflows, and the trigger can store the difference, which for a
      positive quantity needs signed subtraction. */
  lemma SucceedsExactlyWhen(t: Table, quantity: U32, expected: U32, signedDiff: bool)
    ensures Isolated(t, quantity, expected, signedDiff).0 == SUCCESS <==>
            && |t.rows| == 1
            && t.rows[0].version == expected
            && quantity <= t.rows[0].available
            && t.rows[0].reserved + quantity <= U32_MAX
            && t.rows[0].version < U32_MAX
            && (quantity > 0 ==> signedDiff)
            && quantity <= -I32_MIN
  {
  }

  /** The result of a call on its own, read off the row and the arguments: 1 for a stale version, 2 for
      too little stock, -1 for a column or a difference out of range, 0 otherwise. With no row the
      procedure compares with the zeros its variables start from; several rows fail its SELECT. */
  lemma ResultExactly(t: Table, quantity: U32, expected: U32, signedDiff: bool)
    ensures var result := Isolated(t, quantity, expected, signedDiff).0;
            && (|t.rows| == 0 ==> result == if expected != 0 then 1 else if quantity > 0 then 2 else 3)
            && (|t.rows| > 1 ==> result == -1)
            && (|t.rows| == 1 ==>
                  var row := t.rows[0];
                  && (result == 1 <==> row.version != expected)
                  && (result == 2 <==> row.version == expected && row.available < quantity)
                  && (result == -1 <==>
                        && row.version == expected
                        && row.available >= quantity
                        && (|| row.reserved + quantity > 0xffff_ffff
                            || row.version == 0xffff_ffff
                            || (quantity > 0 && !signedDiff)
                            || quantity > 0x8000_0000))
                  && -1 <= result <= 2)
  {
  }

  /** The UPDATE on its own, when the row may have changed since the SELECT: a stale version by now is
      result 3, with no row touched. */
  lemma LostRaceReadsThree(t: Table, quantity: U32, expected: U32, signedDiff: bool)
    requires |t.rows| == 1
    ensures Finished(t, quantity, expected, signedDiff).0 == 3 <==> t.rows[0].version != expected
    ensures t.rows[0].version != expected ==> Finished(t, quantity, expected, signedDiff) == (3, t)
  {
  }

  /** What a success writes: the quantity moves from available to reserved, the version goes up by
      one, and one audit entry records it (operation 2, or 0 when the quantity is 0). */
  lemma SuccessWrites(t: Table, quantity: U32, expected: U32, signedDiff: bool)
    requires Isolated(t, quantity, expected, signedDiff).0 == 0
    requires |t.rows| == 1
    ensures var row, t' := t.rows[0], Isolated(t, quantity, expected, signedDiff).1;
            && |t'.rows| == 1
            && t'.rows[0].total == row.total && t'.rows[0].sold == row.sold
            && t'.rows[0].available == row.available - quantity
            && t'.rows[0].reserved == row.reserved + quantity
            && t'.rows[0].version == row.version + 1
            && t'.log == t.log + [LogEntry(if quantity > 0 then 2 else 0, 0 - quantity as int, row.available,
                                           row.available - quantity)]
  {
  }

  /** A call that does not succeed leaves no trace, in the rows or in the log. */
  lemma FailureChangesNothing(t: Table, quantity: U32, expected: U32, signedDiff: bool)
    requires Isolated(t, quantity, expected, signedDiff).0 != SUCCESS
    ensures Isolated(t, quantity, expected, signedDiff).1 == t
  {
  }

  // ---------------------------------------------------------------- interleaved calls

  type Client = nat

  /** Where a session is: it has passed the SELECT and its checks, or it holds the row lock with
      its UPDATE done and not committed. */
  datatype Session = Checked(quantity: U32, expected: U32)
                   | Updated(quantity: U32, expected: U32, after: Table)

  /** The order in which calls and cleanups took effect, with what each caller is told. A call that
      times out waiting for the row lock has no effect. */
  datatype Event = Call(client: Client, quantity: U32, expected: U32, result: int)
                 | TimedOut(client: Client, quantity: U32, expected: U32, result: int)
                 | Cleanup(quantity: U32)

  datatype State = State(table: Table, lock: Option<Client>, sessions: map<Client, Session>,
                         history: seq<Event>)

  datatype Action =
    | Select(client: Client, quantity: U32, expected: U32)
    | Update(client: Client)
    | Commit(client: Client)
    | LockTimeout(client: Client)
    | Abort(client: Client)
    | RunCleanup(quantity: U32)

  function Start(t: Table): State {
    State(t, None, map[], [])
  }

  predicate Enabled(s: State, a: Action) {
    match a
    case Select(c, _, _) => c !in s.sessions
    case Update(c) => c in s.sessions && s.sessions[c].Checked? && s.lock.None?
    case Commit(c) => c in s.sessions && s.sessions[c].Updated?
    case LockTimeout(c) => c in s.sessions && s.sessions[c].Checked? && s.lock.Some?
    case Abort(c) => c in s.sessions
    case RunCleanup(_) => s.lock.None?
  }

  function End(s: State, c: Client, e: Event): State {
    s.(sessions := s.sessions - {c}, history := s.history + [e])
  }

  /** SELECT reads committed data without locking; UPDATE waits for the row lock and reads the
      current row; COMMIT publishes. Waiting too long is an exception, whose handler answers -1. A
      session may also be lost with its client: it is rolled back and nobody is told anything. */
  function Step(s: State, a: Action, signedDiff: bool): State
    requires Enabled(s, a)
  {
    match a
    case Select(c, quantity, expected) =>
      (match Decided(s.table, quantity, expected)
       case Some(result) => End(s, c, Call(c, quantity, expected, result))
       case None => s.(sessions := s.sessions[c := Checked(quantity, expected)]))
    case Update(c) =>
      var Checked(quantity, expected) := s.sessions[c];
      var (result, after) := Finished(s.table, quantity, expected, signedDiff);
      if result == SUCCESS then
        s.(sessions := s.sessions[c := Updated(quantity, expected, after)], lock := Some(c))
      else End(s, c, Call(c, quantity, expected, result))
    case Commit(c) =>
      var Updated(quantity, expected, after) := s.sessions[c];
      End(s.(table := after, lock := None), c, Call(c, quantity, expected, SUCCESS))
    case LockTimeout(c) =>
      var Checked(quantity, expected) := s.sessions[c];
      End(s, c, TimedOut(c, quantity, expected, DATABASE_ERROR))
    case Abort(c) =>
      s.(sessions := s.sessions - {c}, lock := if s.lock == Some(c) then None else s.lock)
    case RunCleanup(quantity) =>
      s.(table := Restored(s.table, quantity, signedDiff), history := s.history + [Cleanup(quantity)])
  }

  /** The states that some interleaving, started from t, goes through. */
  ghost predicate IsRun(states: seq<State>, t: Table, signedDiff: bool) {
    && |states| > 0
    && states[0] == Start(t)
    && forall i :: 0 < i < |states| ==> CanStep(states[i - 1], states[i], signedDiff)
  }

  ghost predicate CanStep(s: State, s': State, signedDiff: bool) {
    exists a :: Enabled(s, a) && s' == Step(s, a, signedDiff)
  }

  /** What a cleanup writes, and when: the quantity moves back if both columns have room. */
  lemma CleanupWrites(s: State, quantity: U32, signedDiff: bool)
    requires |s.table.rows| == 1 && s.lock.None?
    ensures var (row, log) := (s.table.rows[0], s.table.log);
            var t' := Step(s, RunCleanup(quantity), signedDiff).table;
            if quantity <= row.reserved && row.available + quantity <= 0xffff_ffff && quantity <= 0x7fff_ffff
            then t' == Table([Row(row.total, row.available + quantity, row.reserved - quantity, row.sold,
                                  row.version)],
                             log + [LogEntry(if quantity > 0 then 1 else 0, quantity, row.available,
                                             row.available + quantity)])
            else t' == s.table
  {
  }

  /** A call that nobody interferes with runs to its end: at most three steps later its client is told
      what the call does on its own, and the table is as that leaves it. */
  lemma UndisturbedCall(s: State, c: Client, quantity: U32, expected: U32, signedDiff: bool) returns (s': State)
    requires c !in s.sessions && s.lock.None?
    ensures CanReach(s, s', 3, signedDiff)
    ensures var (result, after) := Isolated(s.table, quantity, expected, signedDiff);
            s' == State(after, None, s.sessions, s.history + [Call(c, quantity, expected, result)])
  {
    s' := Step(s, Select(c, quantity, expected), signedDiff);
    assert CanStep(s, s', signedDiff);
    if Decided(s.table, quantity, expected).None? {
      var checked := s';
      s' := Step(checked, Update(c), signedDiff);
      assert CanStep(checked, s', signedDiff);
      if s'.lock.Some? {
        var updated := s';
        s' := Step(updated, Commit(c), signedDiff);
        assert CanStep(updated, s', signedDiff) && CanReach(updated, s', 1, signedDiff);
        assert CanReach(checked, s', 2, signedDiff);
      } else {
        assert CanReach(checked, s', 1, signedDiff);
      }
      assert s'.sessions == s.sessions;
    } else {
      assert s'.sessions == s.sessions;
    }
  }

  /** In at most this many steps. */
  ghost predicate CanReach(s: State, s': State, steps: nat, signedDiff: bool)
    decreases steps
  {
    s' == s || (steps > 0 && exists m :: CanStep(s, m, signedDiff) && CanReach(m, s', steps - 1, signedDiff))
  }

  // ---------------------------------------------------------------- the sequential reading

  /** The table after the events of the history, each executed on its own. */
  function Replay(t: Table, history: seq<Event>, signedDiff: bool): Table {
    if |history| == 0 then t
    else TakeEffect(Replay(t, history[..|history| - 1], signedDiff), history[|history| - 1], signedDiff)
  }

  function TakeEffect(t: Table, e: Event, signedDiff: bool): Table {
    match e
    case Call(_, quantity, expected, _) => Isolated(t, quantity, expected, signedDiff).1
    case TimedOut(_, _, _, _) => t
    case Cleanup(quantity) => Restored(t, quantity, signedDiff)
  }

  /** A call that lost its race after the SELECT is told "update failed" where, on its own, it
      would have been told "version conflict"; every other result is the same. */
  predicate SameOutcome(concurrent: int, alone: int) {
    concurrent == alone || (concurrent == UPDATE_FAILED && alone == VERSION_CONFLICT)
  }

  predicate OutcomeAgrees(there: Table, e: Event, signedDiff: bool) {
    match e
    case Call(_, quantity, expected, result) =>
      SameOutcome(result, Isolated(there, quantity, expected, signedDiff).0)
    case TimedOut(_, _, _, result) => result == DATABASE_ERROR
    case Cleanup(_) => true
  }

  predicate OutcomesAgree(t: Table, history: seq<Event>, signedDiff: bool) {
    forall i :: 0 <= i < |history| ==> OutcomeAgrees(Replay(t, history[..i], signedDiff), history[i], signedDiff)
  }

  lemma ReplaySnoc(t: Table, history: seq<Event>, e: Event, signedDiff: bool)
    requires OutcomesAgree(t, history, signedDiff)
    requires OutcomeAgrees(Replay(t, history, signedDiff), e, signedDiff)
    ensures OutcomesAgree(t, history + [e], signedDiff)
    ensures Replay(t, history + [e], signedDiff) == TakeEffect(Replay(t, history, signedDiff), e, signedDiff)
  {
    hide OutcomeAgrees;
    var longer := history + [e];
    assert longer[..|longer| - 1] == history;
    forall i | 0 <= i < |longer|
      ensures OutcomeAgrees(Replay(t, longer[..i], signedDiff), longer[i], signedDiff)
    {
      if i < |history| {
        assert longer[..i] == history[..i];
      }
    }
  }

  /** What the SELECT established still protects the UPDATE: as long as the version is the expected
      one, the stock has not gone down. */
  predicate SessionInv(s: State, c: Client, signedDiff: bool)
    requires c in s.sessions
  {
    match s.sessions[c]
    case Checked(quantity, expected) =>
      && |s.table.rows| <= 1
      && (|s.table.rows| == 0 ==> expected == 0 && quantity == 0)
      && (|s.table.rows| == 1 ==>
            || s.table.rows[0].version > expected
            || (s.table.rows[0].version == expected && s.table.rows[0].available >= quantity))
    case Updated(quantity, expected, after) =>
      s.lock == Some(c) && Isolated(s.table, quantity, expected, signedDiff) == (SUCCESS, after)
  }

  ghost predicate Inv(s: State, t: Table, signedDiff: bool) {
    && Replay(t, s.history, signedDiff) == s.table
    && OutcomesAgree(t, s.history, signedDiff)
    && (s.lock.Some? ==> s.lock.value in s.sessions && s.sessions[s.lock.value].Updated?)
    && forall c :: c in s.sessions ==> SessionInv(s, c, signedDiff)
  }

  /** Committed changes never lower the version, and lower the stock only by raising the version. */
  predicate Advances(before: Table, after: Table) {
    && |after.rows| == |before.rows|
    && (|before.rows| == 1 ==>
          || after.rows[0].version > before.rows[0].version
          || (after.rows[0].version == before.rows[0].version &&
              after.rows[0].available >= before.rows[0].available))
  }

  lemma SessionsSurvive(s: State, s': State, signedDiff: bool)
    requires Advances(s.table, s'.table)
    requires forall c :: c in s.sessions ==> SessionInv(s, c, signedDiff)
    requires forall c :: c in s'.sessions ==> c in s.sessions && s'.sessions[c] == s.sessions[c]
    requires forall c :: c in s'.sessions ==> s'.sessions[c].Checked?
    ensures forall c :: c in s'.sessions ==> SessionInv(s', c, signedDiff)
  {
    forall c | c in s'.sessions ensures SessionInv(s', c, signedDiff) {
      assert SessionInv(s, c, signedDiff);
    }
  }

  lemma StepKeepsInv(s: State, a: Action, t: Table, signedDiff: bool)
    requires Inv(s, t, signedDiff) && Enabled(s, a)
    ensures Inv(Step(s, a, signedDiff), t, signedDiff)
  {
    hide Inv, Step, Enabled;
    match a
    case Select(c, quantity, expected) => SelectKeepsInv(s, c, quantity, expected, t, signedDiff);
    case Update(c) => UpdateKeepsInv(s, c, t, signedDiff);
    case Commit(c) => CommitKeepsInv(s, c, t, signedDiff);
    case LockTimeout(c) => LockTimeoutKeepsInv(s, c, t, signedDiff);
    case Abort(c) => AbortKeepsInv(s, c, t, signedDiff);
    case RunCleanup(quantity) => CleanupKeepsInv(s, quantity, t, signedDiff);
  }

  lemma AbortKeepsInv(s: State, c: Client, t: Table, signedDiff: bool)
    requires Inv(s, t, signedDiff) && Enabled(s, Abort(c))
    ensures Inv(Step(s, Abort(c), signedDiff), t, signedDiff)
  {
    hide Replay, OutcomesAgree;
    var s' := Step(s, Abort(c), signedDiff);
    forall d | d in s'.sessions ensures SessionInv(s', d, signedDiff) {
      assert SessionInv(s, d, signedDiff);
    }
  }

  lemma LockTimeoutKeepsInv(s: State, c: Client, t: Table, signedDiff: bool)
    requires Inv(s, t, signedDiff) && Enabled(s, LockTimeout(c))
    ensures Inv(Step(s, LockTimeout(c), signedDiff), t, signedDiff)
  {
    hide Replay, OutcomesAgree;
    var s' := Step(s, LockTimeout(c), signedDiff);
    ReplaySnoc(t, s.history, s'.history[|s.history|], signedDiff);
    forall d | d in s'.sessions ensures SessionInv(s', d, signedDiff) {
      assert SessionInv(s, d, signedDiff);
    }
  }

  lemma CleanupKeepsInv(s: State, quantity: U32, t: Table, signedDiff: bool)
    requires Inv(s, t, signedDiff) && Enabled(s, RunCleanup(quantity))
    ensures Inv(Step(s, RunCleanup(quantity), signedDiff), t, signedDiff)
  {
    hide Replay, OutcomesAgree, Isolated;
    var s' := Step(s, RunCleanup(quantity), signedDiff);
    ReplaySnoc(t, s.history, Cleanup(quantity), signedDiff);
    forall c | c in s'.sessions ensures s'.sessions[c].Checked? {
      assert SessionInv(s, c, signedDiff);
    }
    SessionsSurvive(s, s', signedDiff);
  }

  lemma SelectKeepsInv(s: State, c: Client, quantity: U32, expected: U32, t: Table, signedDiff: bool)
    requires Inv(s, t, signedDiff) && Enabled(s, Select(c, quantity, expected))
    ensures Inv(Step(s, Select(c, quantity, expected), signedDiff), t, signedDiff)
  {
    var s' := Step(s, Select(c, quantity, expected), signedDiff);
    match Decided(s.table, quantity, expected) {
      case Some(result) =>
        ReplaySnoc(t, s.history, Call(c, quantity, expected, result), signedDiff);
      case None =>
    }
    forall d | d in s'.sessions ensures SessionInv(s', d, signedDiff) {
      if d != c {
        assert SessionInv(s, d, signedDiff);
      }
    }
  }

  lemma UpdateKeepsInv(s: State, c: Client, t: Table, signedDiff: bool)
    requires Inv(s, t, signedDiff) && Enabled(s, Update(c))
    ensures Inv(Step(s, Update(c), signedDiff), t, signedDiff)
  {
    hide Replay, OutcomesAgree;
    var s' := Step(s, Update(c), signedDiff);
    var Checked(quantity, expected) := s.sessions[c];
    assert SessionInv(s, c, signedDiff);
    var (result, after) := Finished(s.table, quantity, expected, signedDiff);
    if result != SUCCESS {
      ReplaySnoc(t, s.history, Call(c, quantity, expected, result), signedDiff);
    }
    forall d | d in s'.sessions ensures SessionInv(s', d, signedDiff) {
      assert SessionInv(s, d, signedDiff);
    }
  }

  lemma CommitKeepsInv(s: State, c: Client, t: Table, signedDiff: bool)
    requires Inv(s, t, signedDiff) && Enabled(s, Commit(c))
    ensures Inv(Step(s, Commit(c), signedDiff), t, signedDiff)
  {
    hide Replay, OutcomesAgree;
    var s' := Step(s, Commit(c), signedDiff);
    var Updated(quantity, expected, after) := s.sessions[c];
    assert SessionInv(s, c, signedDiff);
    ReplaySnoc(t, s.history, Call(c, quantity, expected, SUCCESS), signedDiff);
    forall d | d in s'.sessions ensures s'.sessions[d].Checked? {
      assert SessionInv(s, d, signedDiff);
    }
    SessionsSurvive(s, s', signedDiff);
  }

  /** Interleaved calls of any number of clients are serializable: the committed table is what the
      calls produce one after the other in the order they took effect, and each caller is told what
      it would have been told then (a lost race reads "update failed" for "version conflict"), but
      for calls that timed out: they change nothing and are told of a database error. */
  lemma {:induction false} Serializable(states: seq<State>, t: Table, signedDiff: bool)
    requires IsRun(states, t, signedDiff)
    ensures var s := states[|states| - 1];
            && Replay(t, s.history, signedDiff) == s.table
            && OutcomesAgree(t, s.history, signedDiff)
            && Inv(s, t, signedDiff)
  {
    if |states| > 1 {
      var before := states[..|states| - 1];
      Serializable(before, t, signedDiff);
      var s := states[|states| - 2];
      assert before[|before| - 1] == s;
      assert CanStep(s, states[|states| - 1], signedDiff);
      var a :| Enabled(s, a) && states[|states| - 1] == Step(s, a, signedDiff);
      StepKeepsInv(s, a, t, signedDiff);
    }
  }

  /** What every caller is told, over every interleaving, read off the row at the instant its call takes
      effect: 1 or 3 for a stale version, 2 for too little stock, -1 for a column or a difference out
      of range, 0 otherwise; a call that times out is told -1. */
  lemma ResultsInRuns(states: seq<State>, t: Table, signedDiff: bool, i: nat)
    requires IsRun(states, t, signedDiff) && |t.rows| == 1
    requires i < |states[|states| - 1].history|
    ensures var h := states[|states| - 1].history;
            var there := Replay(t, h[..i], signedDiff);
            && |there.rows| == 1
            && (h[i].TimedOut? ==> h[i].result == -1)
            && (h[i].Call? ==>
                  var row := there.rows[0];
                  && (h[i].result == 1 || h[i].result == 3 <==> row.version != h[i].expected)
                  && (h[i].result == 2 <==> row.version == h[i].expected && row.available < h[i].quantity)
                  && (h[i].result == -1 <==>
                        && row.version == h[i].expected
                        && row.available >= h[i].quantity
                        && (|| row.reserved + h[i].quantity > 0xffff_ffff
                            || row.version == 0xffff_ffff
                            || (h[i].quantity > 0 && !signedDiff)
                            || h[i].quantity > 0x8000_0000))
                  && -1 <= h[i].result <= 3)
  {
    hide Isolated, Replay, OutcomesAgree;
    Serializable(states, t, signedDiff);
    var h := states[|states| - 1].history;
    AgreeSoFar(t, h, i, signedDiff);
    HistoryBalances(t, h[..i], signedDiff);
    if h[i].Call? {
      ResultExactly(Replay(t, h[..i], signedDiff), h[i].quantity, h[i].expected, signedDiff);
    }
  }

  // ---------------------------------------------------------------- real time

  /** An event enters the history in a step of its own client's call, at most one per step. */
  lemma EffectsAreOwnSteps(s: State, a: Action, signedDiff: bool)
    requires Enabled(s, a)
    ensures var s' := Step(s, a, signedDiff);
            || s'.history == s.history
            || exists e ::
                 && s'.history == s.history + [e]
                 && (!e.Cleanup? ==> !a.RunCleanup? && e.client == a.client && OfCall(s, a, e))
  {
    var s' := Step(s, a, signedDiff);
    if s'.history != s.history {
      var e := s'.history[|s.history|];
      assert s'.history == s.history + [e];
    }
  }

  /** The event is about the call that the action begins, or that its session was running. */
  predicate OfCall(s: State, a: Action, e: Event)
    requires Enabled(s, a) && !a.RunCleanup? && !e.Cleanup?
  {
    var (quantity, expected) :=
      if a.Select? then (a.quantity, a.expected)
      else (s.sessions[a.client].quantity, s.sessions[a.client].expected);
    e.quantity == quantity && e.expected == expected
  }

  lemma {:induction false} HistoryGrows(states: seq<State>, t: Table, signedDiff: bool, i: nat, j: nat)
    requires IsRun(states, t, signedDiff) && i <= j < |states|
    ensures states[i].history <= states[j].history
    decreases j
  {
    if i < j {
      HistoryGrows(states, t, signedDiff, i, j - 1);
      assert CanStep(states[j - 1], states[j], signedDiff);
      var a :| Enabled(states[j - 1], a) && states[j] == Step(states[j - 1], a, signedDiff);
      EffectsAreOwnSteps(states[j - 1], a, signedDiff);
    }
  }

  /** In step b, client c's call for this quantity and version begins with its SELECT. */
  predicate Begins(states: seq<State>, b: nat, c: Client, quantity: U32, expected: U32, signedDiff: bool) {
    && b + 1 < |states|
    && c !in states[b].sessions
    && states[b + 1] == Step(states[b], Select(c, quantity, expected), signedDiff)
  }

  /** That call is still running in the state m. */
  predicate Runs(s: State, c: Client, quantity: U32, expected: U32) {
    c in s.sessions && s.sessions[c].quantity == quantity && s.sessions[c].expected == expected
  }

  /** Event k is the outcome of a call that begins in step b and ends in step e. */
  ghost predicate Spans(states: seq<State>, k: nat, b: nat, e: nat, signedDiff: bool) {
    && b <= e && e + 1 < |states|
    && |states[e].history| == k < |states[e + 1].history|
    && var event := states[e + 1].history[k];
       && !event.Cleanup?
       && Begins(states, b, event.client, event.quantity, event.expected, signedDiff)
       && forall m :: b < m <= e ==> Runs(states[m], event.client, event.quantity, event.expected)
  }

  /** The session of c in the last state began in step b and has been running since. */
  ghost predicate RunningSince(states: seq<State>, c: Client, b: nat, signedDiff: bool)
    requires |states| > 0 && c in states[|states| - 1].sessions
  {
    var session := states[|states| - 1].sessions[c];
    && Begins(states, b, c, session.quantity, session.expected, signedDiff)
    && forall m :: b < m < |states| ==> Runs(states[m], c, session.quantity, session.expected)
  }

  lemma {:induction false} SessionsBegan(states: seq<State>, t: Table, signedDiff: bool, c: Client)
      returns (b: nat)
    requires IsRun(states, t, signedDiff) && c in states[|states| - 1].sessions
    ensures RunningSince(states, c, b, signedDiff)
    decreases |states|
  {
    var n := |states| - 1;
    assert n > 0;
    var s := states[n - 1];
    assert CanStep(s, states[n], signedDiff);
    var a :| Enabled(s, a) && states[n] == Step(s, a, signedDiff);
    SessionKept(s, a, c, signedDiff);
    if c in s.sessions {
      b := SessionsBegan(states[..n], t, signedDiff, c);
      BeginsLater(states, n, b, c, signedDiff);
    } else {
      b := n - 1;
    }
  }

  lemma SessionKept(s: State, a: Action, c: Client, signedDiff: bool)
    requires Enabled(s, a) && c in Step(s, a, signedDiff).sessions
    ensures var session := Step(s, a, signedDiff).sessions[c];
            if c in s.sessions then Runs(s, c, session.quantity, session.expected)
            else a == Select(c, session.quantity, session.expected)
  {
  }

  lemma BeginsLater(states: seq<State>, n: nat, b: nat, c: Client, signedDiff: bool)
    requires n + 1 == |states| && 0 < n && c in states[n].sessions && c in states[n - 1].sessions
    requires Runs(states[n - 1], c, states[n].sessions[c].quantity, states[n].sessions[c].expected)
    requires RunningSince(states[..n], c, b, signedDiff)
    ensures RunningSince(states, c, b, signedDiff)
  {
    hide Step;
    var session := states[n].sessions[c];
    forall m | b < m < |states| ensures Runs(states[m], c, session.quantity, session.expected) {
      if m < n {
        assert states[..n][m] == states[m];
      }
    }
  }

  lemma SpansLater(states: seq<State>, n: nat, k: nat, b: nat, e: nat, signedDiff: bool)
    requires n <= |states| && Spans(states[..n], k, b, e, signedDiff)
    ensures Spans(states, k, b, e, signedDiff)
    ensures states[e + 1] == states[..n][e + 1]
  {
    hide Step, Runs;
    var event := states[e + 1].history[k];
    forall m | b < m <= e ensures Runs(states[m], event.client, event.quantity, event.expected) {
      assert states[..n][m] == states[m];
    }
  }

  /** A session that has been running ends with the event its last step adds. */
  lemma SpansNow(states: seq<State>, n: nat, a: Action, b: nat, event: Event, signedDiff: bool)
    requires n + 1 == |states| && 0 < n && !event.Cleanup? && !a.RunCleanup? && event.client == a.client
    requires Enabled(states[n - 1], a) && states[n] == Step(states[n - 1], a, signedDiff)
    requires states[n].history == states[n - 1].history + [event] && OfCall(states[n - 1], a, event)
    requires if a.Select? then b == n - 1
             else a.client in states[n - 1].sessions && RunningSince(states[..n], a.client, b, signedDiff)
    ensures Spans(states, |states[n - 1].history|, b, n - 1, signedDiff)
  {
    hide Step, Runs;
    forall m | b < m <= n - 1 ensures Runs(states[m], event.client, event.quantity, event.expected) {
      assert states[..n][m] == states[m];
    }
  }

  /** Each call takes effect, or times out, while it is running: between its SELECT and its last
      statement. */
  lemma {:induction false} CallsTakeEffectWhileRunning(states: seq<State>, t: Table, signedDiff: bool, k: nat)
      returns (b: nat, e: nat)
    requires IsRun(states, t, signedDiff)
    requires k < |states[|states| - 1].history| && !states[|states| - 1].history[k].Cleanup?
    ensures Spans(states, k, b, e, signedDiff)
    ensures states[e + 1].history[k] == states[|states| - 1].history[k]
    decreases |states|
  {
    hide Step, Spans, RunningSince, OfCall;
    var n := |states| - 1;
    assert n > 0;
    var s := states[n - 1];
    assert CanStep(s, states[n], signedDiff);
    var a :| Enabled(s, a) && states[n] == Step(s, a, signedDiff);
    EffectsAreOwnSteps(s, a, signedDiff);
    if k < |s.history| {
      b, e := CallsTakeEffectWhileRunning(states[..n], t, signedDiff, k);
      SpansLater(states, n, k, b, e, signedDiff);
    } else {
      e := n - 1;
      b := n - 1;
      if !a.Select? {
        b := SessionsBegan(states[..n], t, signedDiff, a.client);
      }
      SpansNow(states, n, a, b, states[n].history[k], signedDiff);
    }
  }

  /** Serial order respects real time: a call that ends before another begins comes before it. */
  lemma RealTimeOrder(states: seq<State>, t: Table, signedDiff: bool,
                      k1: nat, b1: nat, e1: nat, k2: nat, b2: nat, e2: nat)
    requires IsRun(states, t, signedDiff)
    requires Spans(states, k1, b1, e1, signedDiff) && Spans(states, k2, b2, e2, signedDiff)
    requires e1 < b2
    ensures k1 < k2
  {
    hide IsRun;
    HistoryGrows(states, t, signedDiff, e1 + 1, e2);
  }

  /** No deadlock: in every reachable state a held row lock belongs to a session that can commit now,
      and doing so frees the lock and publishes its update. */
  lemma LockHolderCanCommit(states: seq<State>, t: Table, signedDiff: bool)
    requires IsRun(states, t, signedDiff) && states[|states| - 1].lock.Some?
    ensures var s := states[|states| - 1];
            && Enabled(s, Commit(s.lock.value))
            && var s' := Step(s, Commit(s.lock.value), signedDiff);
               s'.lock.None? && Won(s'.history[|s'.history| - 1]) && s'.table != s.table
  {
    Serializable(states, t, signedDiff);
    var s := states[|states| - 1];
    assert SessionInv(s, s.lock.value, signedDiff);
  }

  // ---------------------------------------------------------------- what serializability buys

  predicate Won(e: Event) {
    e.Call? && e.result == SUCCESS
  }

  /** Number of successful calls. */
  function Wins(history: seq<Event>): nat {
    if |history| == 0 then 0
    else Wins(history[..|history| - 1]) + if Won(history[|history| - 1]) then 1 else 0
  }

  /** Total quantity of the successful calls. */
  function Granted(history: seq<Event>): nat {
    if |history| == 0 then 0
    else
      var last := history[|history| - 1];
      Granted(history[..|history| - 1]) + if Won(last) then last.quantity else 0
  }

  /** Total quantity the cleanups actually put back. */
  function PutBack(t: Table, history: seq<Event>, signedDiff: bool): nat {
    if |history| == 0 then 0
    else
      var before, last := history[..|history| - 1], history[|history| - 1];
      var there := Replay(t, before, signedDiff);
      PutBack(t, before, signedDiff)
      + if last.Cleanup? && Restored(there, last.quantity, signedDiff) != there then last.quantity else 0
  }

  /** An audit entry for an update that took the stock from one value to the other. */
  predicate Links(e: LogEntry, from: nat, to: nat) {
    && e.before == from
    && e.after == to
    && from + e.change == to
    && e.operation == (if e.change < 0 then 2 else if e.change > 0 then 1 else 0)
  }

  /** Consecutive audit entries take the stock from one value to the other. */
  predicate Chained(entries: seq<LogEntry>, from: nat, to: nat) {
    if |entries| == 0 then from == to
    else
      var last := entries[|entries| - 1];
      Links(last, last.before, to) && Chained(entries[..|entries| - 1], from, last.before)
  }

  /** The balance a history leaves, as a relation between the first and the last row. */
  predicate Balanced(first: Row, last: Row, wins: nat, granted: nat, putBack: nat) {
    && last.available + granted == first.available + putBack
    && last.reserved + putBack == first.reserved + granted
    && last.version == first.version + wins
    && last.total == first.total
    && last.sold == first.sold
  }

  lemma ChainSnoc(entries: seq<LogEntry>, from: nat, to: nat, e: LogEntry)
    requires Chained(entries, from, to) && Links(e, to, e.after)
    ensures Chained(entries + [e], from, e.after)
  {
    assert (entries + [e])[..|entries + [e]| - 1] == entries;
  }

  lemma AgreeSoFar(t: Table, history: seq<Event>, i: nat, signedDiff: bool)
    requires OutcomesAgree(t, history, signedDiff) && i <= |history|
    ensures OutcomesAgree(t, history[..i], signedDiff)
    ensures i < |history| ==> OutcomeAgrees(Replay(t, history[..i], signedDiff), history[i], signedDiff)
  {
    hide OutcomeAgrees;
    var before := history[..i];
    forall k | 0 <= k < |before|
      ensures OutcomeAgrees(Replay(t, before[..k], signedDiff), before[k], signedDiff)
    {
      assert before[..k] == history[..k];
    }
  }

  /** One more audit entry, which takes the stock of one table to that of the other. */
  predicate OneEntry(m: Table, m': Table)
    requires |m.rows| == 1 && |m'.rows| == 1
  {
    && |m'.log| == |m.log| + 1
    && m.log <= m'.log
    && Links(m'.log[|m.log|], m.rows[0].available, m'.rows[0].available)
  }

  /** One event's contribution to the balance, and the audit entry it leaves if it changes the row. */
  lemma EffectBalances(m: Table, e: Event, signedDiff: bool)
    requires |m.rows| == 1
    requires OutcomeAgrees(m, e, signedDiff)
    ensures var m' := TakeEffect(m, e, signedDiff);
            && |m'.rows| == 1
            && Balanced(m.rows[0], m'.rows[0], if Won(e) then 1 else 0, if Won(e) then e.quantity else 0,
                        if e.Cleanup? && m' != m then e.quantity else 0)
            && (m' == m || OneEntry(m, m'))
  {
  }

  /** Over any serial history of a one-row product: stock granted and put back balances exactly,
      the version counts the successes, and the audit log replays the stock. */
  lemma {:induction false} HistoryBalances(t: Table, history: seq<Event>, signedDiff: bool)
    requires |t.rows| == 1 && OutcomesAgree(t, history, signedDiff)
    ensures var t' := Replay(t, history, signedDiff);
            && |t'.rows| == 1
            && Balanced(t.rows[0], t'.rows[0], Wins(history), Granted(history),
                        PutBack(t, history, signedDiff))
            && t.log <= t'.log
            && Chained(t'.log[|t.log|..], t.rows[0].available, t'.rows[0].available)
  {
    hide TakeEffect, SameOutcome, Isolated, Restored, OneEntry, Chained;
    if |history| == 0 {
      assert t.log[|t.log|..] == [];
      EmptyChain(t.rows[0].available);
    } else {
      var n := |history| - 1;
      AgreeSoFar(t, history, n, signedDiff);
      HistoryBalances(t, history[..n], signedDiff);
      var m := Replay(t, history[..n], signedDiff);
      EffectBalances(m, history[n], signedDiff);
      var m' := TakeEffect(m, history[n], signedDiff);
      CleanupEffect(m, history[n], signedDiff);
      LogGrows(t.log, t.rows[0].available, m, m');
    }
  }

  lemma EmptyChain(stock: nat)
    ensures Chained([], stock, stock)
  {
  }

  lemma LogGrows(log: seq<LogEntry>, from: nat, m: Table, m': Table)
    requires |m.rows| == 1 && |m'.rows| == 1 && (m' == m || OneEntry(m, m'))
    requires log <= m.log && Chained(m.log[|log|..], from, m.rows[0].available)
    ensures log <= m'.log && Chained(m'.log[|log|..], from, m'.rows[0].available)
  {
    if m' != m {
      hide Chained;
      var entry := m'.log[|m.log|];
      assert m'.log[|log|..] == m.log[|log|..] + [entry];
      ChainSnoc(m.log[|log|..], from, m.rows[0].available, entry);
    }
  }

  lemma CleanupEffect(m: Table, e: Event, signedDiff: bool)
    ensures e.Cleanup? ==> TakeEffect(m, e, signedDiff) == Restored(m, e.quantity, signedDiff)
  {
  }

  /** No oversell, over every interleaving: what was granted never exceeds the initial stock plus
      what cleanups put back, and available + reserved + sold never changes. */
  lemma NoOversell(states: seq<State>, t: Table, signedDiff: bool)
    requires IsRun(states, t, signedDiff) && |t.rows| == 1
    ensures var s := states[|states| - 1];
            && Granted(s.history) <= t.rows[0].available + PutBack(t, s.history, signedDiff)
            && |s.table.rows| == 1
            && var (row, row') := (t.rows[0], s.table.rows[0]);
               && row'.available + row'.reserved + row'.sold == row.available + row.reserved + row.sold
               && row'.total == row.total
               && row'.version == row.version + Wins(s.history)
  {
    Serializable(states, t, signedDiff);
    HistoryBalances(t, states[|states| - 1].history, signedDiff);
  }

  lemma SerialWinner(t: Table, history: seq<Event>, signedDiff: bool, i: nat)
    requires |t.rows| == 1 && OutcomesAgree(t, history, signedDiff)
    requires i < |history| && Won(history[i])
    ensures history[i].expected == t.rows[0].version + Wins(history[..i])
  {
    AgreeSoFar(t, history, i, signedDiff);
    HistoryBalances(t, history[..i], signedDiff);
  }

  /** Over every interleaving, the k-th success was for the k-th version: successes follow the
      version order. */
  lemma WinnersFollowVersions(states: seq<State>, t: Table, signedDiff: bool, i: nat)
    requires IsRun(states, t, signedDiff) && |t.rows| == 1
    requires var h := states[|states| - 1].history; i < |h| && Won(h[i])
    ensures var h := states[|states| - 1].history; h[i].expected == t.rows[0].version + Wins(h[..i])
  {
    Serializable(states, t, signedDiff);
    SerialWinner(t, states[|states| - 1].history, signedDiff, i);
  }

  lemma {:induction false} WinsGrow(history: seq<Event>, i: nat, j: nat)
    requires i < j <= |history| && Won(history[i])
    ensures Wins(history[..i]) < Wins(history[..j])
    decreases j
  {
    assert history[..j][..j - 1] == history[..j - 1];
    if i < j - 1 {
      WinsGrow(history, i, j - 1);
    }
  }

  /** Over every interleaving, two different successful calls had different expected versions,
      the earlier one the smaller. */
  lemma EachVersionWinsOnce(states: seq<State>, t: Table, signedDiff: bool, i: nat, j: nat)
    requires IsRun(states, t, signedDiff) && |t.rows| == 1
    requires var h := states[|states| - 1].history; i < j < |h| && Won(h[i]) && Won(h[j])
    ensures var h := states[|states| - 1].history; h[i].expected < h[j].expected
  {
    WinnersFollowVersions(states, t, signedDiff, i);
    WinnersFollowVersions(states, t, signedDiff, j);
    WinsGrow(states[|states| - 1].history, i, j);
  }

  /** Sum of quantity_change over audit entries. */
  function TotalChange(entries: seq<LogEntry>): int {
    if |entries| == 0 then 0
    else TotalChange(entries[..|entries| - 1]) + entries[|entries| - 1].change
  }

  lemma {:induction false} ChainReplays(entries: seq<LogEntry>, from: nat, to: nat)
    requires Chained(entries, from, to)
    ensures from + TotalChange(entries) == to
    ensures |entries| > 0 ==> entries[0].before == from && entries[|entries| - 1].after == to
    ensures forall i :: 0 <= i < |entries| - 1 ==> entries[i].after == entries[i + 1].before
    ensures forall i :: 0 <= i < |entries| ==> (entries[i].operation == 2 <==> entries[i].change < 0)
    ensures forall i :: 0 <= i < |entries| ==> (entries[i].operation == 1 <==> entries[i].change > 0)
  {
    if |entries| > 0 {
      var before, last := entries[..|entries| - 1], entries[|entries| - 1];
      ChainReplays(before, from, last.before);
      forall i | 0 <= i < |entries| - 1 ensures entries[i].after == entries[i + 1].before {
        assert entries[i] == before[i];
        if i < |before| - 1 {
          assert entries[i + 1] == before[i + 1];
        }
      }
      forall i | 0 <= i < |entries| - 1
        ensures entries[i].operation == 2 <==> entries[i].change < 0
        ensures entries[i].operation == 1 <==> entries[i].change > 0
      {
        assert entries[i] == before[i];
      }
    }
  }

  /** Over every interleaving, folding the audit entries written since the start over the initial
      stock gives the committed stock; consecutive entries meet and types match the signs. */
  lemma AuditReplaysStock(states: seq<State>, t: Table, signedDiff: bool)
    requires IsRun(states, t, signedDiff) && |t.rows| == 1
    ensures var s := states[|states| - 1];
            && t.log <= s.table.log
            && |s.table.rows| == 1
            && var entries := s.table.log[|t.log|..];
               && t.rows[0].available + TotalChange(entries) == s.table.rows[0].available
               && (forall i :: 0 <= i < |entries| - 1 ==> entries[i].after == entries[i + 1].before)
               && (forall i :: 0 <= i < |entries| ==> (entries[i].operation == 2 <==> entries[i].change < 0))
               && (forall i :: 0 <= i < |entries| ==> (entries[i].operation == 1 <==> entries[i].change > 0))
  {
    Serializable(states, t, signedDiff);
    var s := states[|states| - 1];
    HistoryBalances(t, s.history, signedDiff);
    ChainReplays(s.table.log[|t.log|..], t.rows[0].available, s.table.rows[0].available);
  }

  lemma {:induction false} SerialUnsignedDiff(t: Table, history: seq<Event>)
    requires OutcomesAgree(t, history, false)
    ensures Granted(history) == 0
  {
    if |history| > 0 {
      var n := |history| - 1;
      AgreeSoFar(t, history, n, false);
      SerialUnsignedDiff(t, history[..n]);
      if Won(history[n]) {
        SucceedsExactlyWhen(Replay(t, history[..n], false), history[n].quantity, history[n].expected, false);
      }
    }
  }

  /** Under default unsigned subtraction the trigger rejects every real decrement: over every
      interleaving only calls for quantity 0 succeed, so nothing is ever granted. */
  lemma UnsignedDiffGrantsNothing(states: seq<State>, t: Table)
    requires IsRun(states, t, false)
    ensures Granted(states[|states| - 1].history) == 0
  {
    Serializable(states, t, false);
    SerialUnsignedDiff(t, states[|states| - 1].history);
  }
}
