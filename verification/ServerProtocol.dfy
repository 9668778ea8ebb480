/** The connection table under the interleaving of the accepting thread with the sub-reactor
    threads. Connections are identified by their descriptors, which stay distinct because a
    connection keeps its socket open. */
module ServerProtocol {
  type Fd = nat

  /** Where a connection's work on its sub-reactor stands: its task is queued; established; the
      connection callback has been told; closing has begun; it is erased from the table; the
      callback has been told of the close; disconnected. */
  datatype Phase = Queued | Established | Up | Closing | Erased | Told | Down

  /** The phases of the accepted connections; the table connections_; which descriptor the accepting
      thread has handed over but not yet inserted; then history. */
  datatype State = State(
    phases: map<Fd, Phase>,
    table: set<Fd>,
    accepting: set<Fd>,

    inserted: set<Fd>,
    erasedEarly: set<Fd>,
    connects: nat,
    disconnects: nat
  )

  const INIT: State := State(map[], {}, {}, {}, {}, 0, 0)

  datatype Action =
    | Accept(fd: Fd)
    | Insert(fd: Fd)
    | Establish(fd: Fd)
    | NotifyUp(fd: Fd)
    | BeginClose(fd: Fd)
    | Erase(fd: Fd)
    | NotifyDown(fd: Fd)
    | EndClose(fd: Fd)

  predicate In(s: State, fd: Fd, p: Phase) {
    fd in s.phases && s.phases[fd] == p
  }

  predicate Enabled(s: State, a: Action) {
    match a
    case Accept(fd) => s.accepting == {} && fd !in s.phases
    case Insert(fd) => fd in s.accepting
    case Establish(fd) => In(s, fd, Queued)
    case NotifyUp(fd) => In(s, fd, Established)
    case BeginClose(fd) => In(s, fd, Up)
    case Erase(fd) => In(s, fd, Closing)
    case NotifyDown(fd) => In(s, fd, Erased)
    case EndClose(fd) => In(s, fd, Told)
  }

  function Move(s: State, fd: Fd, p: Phase): State {
    s.(phases := s.phases[fd := p])
  }

  function Step(s: State, a: Action): State
    requires Enabled(s, a)
  {
    match a
    case Accept(fd) => Move(s, fd, Queued).(accepting := {fd})
    case Insert(fd) => s.(table := s.table + {fd}, inserted := s.inserted + {fd}, accepting := {})
    case Establish(fd) => Move(s, fd, Established)
    case NotifyUp(fd) => Move(s, fd, Up).(connects := s.connects + 1)
    case BeginClose(fd) => Move(s, fd, Closing)
    case Erase(fd) =>
      Move(s, fd, Erased).(table := s.table - {fd},
                           erasedEarly := s.erasedEarly + if fd in s.inserted then {} else {fd})
    case NotifyDown(fd) => Move(s, fd, Told).(disconnects := s.disconnects + 1)
    case EndClose(fd) => Move(s, fd, Down)
  }

  function Run(s: State, actions: seq<Action>): State
    requires ValidRun(s, actions)
    decreases |actions|, 1
  {
    if actions == [] then s else Step(Run(s, actions[..|actions| - 1]), actions[|actions| - 1])
  }

  predicate ValidRun(s: State, actions: seq<Action>)
    decreases |actions|, 0
  {
    actions == [] ||
    (ValidRun(s, actions[..|actions| - 1]) &&
     Enabled(Run(s, actions[..|actions| - 1]), actions[|actions| - 1]))
  }

  /** TcpConnection::isConnected. */
  predicate Connected(s: State, fd: Fd) {
    In(s, fd, Established) || In(s, fd, Up)
  }

  predicate PastErase(p: Phase) {
    p.Erased? || p.Told? || p.Down?
  }

  predicate PastUp(p: Phase) {
    !p.Queued? && !p.Established?
  }

  ghost function Announced(s: State): set<Fd> {
    set fd | fd in s.phases && PastUp(s.phases[fd])
  }

  ghost function Revoked(s: State): set<Fd> {
    set fd | fd in s.phases && (s.phases[fd].Told? || s.phases[fd].Down?)
  }

  predicate InvAt(s: State, fd: Fd) {
    && (fd in s.inserted || fd in s.accepting <==> fd in s.phases)
    && (fd in s.inserted ==> fd !in s.accepting)
    && (fd in s.erasedEarly ==> fd in s.phases && PastErase(s.phases[fd]))
    && (fd in s.table <==> fd in s.inserted && (!PastErase(s.phases[fd]) || fd in s.erasedEarly))
    && (fd in s.phases && PastErase(s.phases[fd]) && fd !in s.inserted ==> fd in s.erasedEarly)
  }

  ghost predicate Inv(s: State) {
    && (forall fd :: InvAt(s, fd))
    && (forall x, y :: x in s.accepting && y in s.accepting ==> x == y)
    && s.connects == |Announced(s)|
    && s.disconnects == |Revoked(s)|
  }

  lemma StepKeepsAt(s: State, a: Action, fd: Fd)
    requires InvAt(s, fd) && Enabled(s, a)
    requires forall x, y :: x in s.accepting && y in s.accepting ==> x == y
    ensures InvAt(Step(s, a), fd)
  {
  }

  lemma OneAccepting(s: State, a: Action)
    requires Enabled(s, a)
    requires forall x, y :: x in s.accepting && y in s.accepting ==> x == y
    ensures forall x, y :: x in Step(s, a).accepting && y in Step(s, a).accepting ==> x == y
  {
  }

  lemma StepCounts(s: State, a: Action)
    requires Enabled(s, a)
    ensures Announced(Step(s, a)) == if a.NotifyUp? then Announced(s) + {a.fd} else Announced(s)
    ensures Revoked(Step(s, a)) == if a.NotifyDown? then Revoked(s) + {a.fd} else Revoked(s)
    ensures Step(s, a).connects == s.connects + if a.NotifyUp? then 1 else 0
    ensures Step(s, a).disconnects == s.disconnects + if a.NotifyDown? then 1 else 0
    ensures a.NotifyUp? ==> a.fd !in Announced(s)
    ensures a.NotifyDown? ==> a.fd !in Revoked(s)
  {
  }

  lemma {:induction false} RunInv(actions: seq<Action>)
    requires ValidRun(INIT, actions)
    ensures Inv(Run(INIT, actions))
    decreases |actions|
  {
    if actions == [] {
      assert Announced(INIT) == {} && Revoked(INIT) == {};
    } else {
      hide Announced, Revoked, InvAt, Enabled, PastErase;
      var before, a := actions[..|actions| - 1], actions[|actions| - 1];
      RunInv(before);
      var s := Run(INIT, before);
      forall fd ensures InvAt(Step(s, a), fd) {
        StepKeepsAt(s, a, fd);
      }
      OneAccepting(s, a);
      StepCounts(s, a);
      hide Step;
    }
  }

  /** The close of the connection ran before the accepting thread inserted it, if it has. */
  ghost predicate ErasedBeforeInserted(actions: seq<Action>, fd: Fd) {
    exists i :: 0 <= i < |actions| && actions[i] == Erase(fd) && Insert(fd) !in actions[..i]
  }

  lemma ErasedBeforeSnoc(before: seq<Action>, a: Action, fd: Fd)
    ensures ErasedBeforeInserted(before + [a], fd)
            <==> ErasedBeforeInserted(before, fd) || (a == Erase(fd) && Insert(fd) !in before)
  {
    var actions := before + [a];
    assert forall i :: 0 <= i <= |before| ==> actions[..i] == before[..i];
    assert before[..|before|] == before;
    if ErasedBeforeInserted(before, fd) {
      var i :| 0 <= i < |before| && before[i] == Erase(fd) && Insert(fd) !in before[..i];
      assert actions[i] == Erase(fd);
    } else if a == Erase(fd) && Insert(fd) !in before {
      assert actions[|before|] == Erase(fd);
    }
  }

  /** The history kept in the state, read off the actions. */
  lemma {:induction false} HistoryTellsTrace(actions: seq<Action>, fd: Fd)
    requires ValidRun(INIT, actions)
    ensures fd in Run(INIT, actions).inserted <==> Insert(fd) in actions
    ensures fd in Run(INIT, actions).erasedEarly <==> ErasedBeforeInserted(actions, fd)
    decreases |actions|
  {
    if actions != [] {
      hide ErasedBeforeInserted, Enabled, Step;
      var before, a := actions[..|actions| - 1], actions[|actions| - 1];
      HistoryTellsTrace(before, fd);
      assert actions == before + [a];
      ErasedBeforeSnoc(before, a, fd);
      StepHistory(Run(INIT, before), a, fd);
    }
  }

  lemma StepHistory(s: State, a: Action, fd: Fd)
    requires Enabled(s, a)
    ensures fd in Step(s, a).inserted <==> fd in s.inserted || a == Insert(fd)
    ensures fd in Step(s, a).erasedEarly <==> fd in s.erasedEarly || (a == Erase(fd) && fd !in s.inserted)
  {
  }

  /** In every interleaving: connected and inserted implies present; an entry was inserted, and if it
      is not connected it is still queued, or mid-close, or was erased before it was inserted. */
  lemma TableIsAccurate(actions: seq<Action>, fd: Fd)
    requires ValidRun(INIT, actions)
    ensures var s := Run(INIT, actions);
            && (Connected(s, fd) && Insert(fd) in actions ==> fd in s.table)
            && (fd in s.table ==> Insert(fd) in actions && fd in s.phases)
            && (fd in s.table && !Connected(s, fd) ==>
                  s.phases[fd].Queued? || s.phases[fd].Closing? || ErasedBeforeInserted(actions, fd))
  {
    hide Run, ValidRun, ErasedBeforeInserted;
    RunInv(actions);
    HistoryTellsTrace(actions, fd);
    assert InvAt(Run(INIT, actions), fd);
  }

  /** A disconnected connection is in the table exactly when the accepting thread has
      inserted it and its close ran before that. */
  lemma StaleEntryExactlyWhen(actions: seq<Action>, fd: Fd)
    requires ValidRun(INIT, actions)
    ensures var s := Run(INIT, actions);
            fd in s.table && In(s, fd, Down)
            <==> In(s, fd, Down) && Insert(fd) in actions && ErasedBeforeInserted(actions, fd)
  {
    hide Run, ValidRun, ErasedBeforeInserted;
    RunInv(actions);
    HistoryTellsTrace(actions, fd);
    assert InvAt(Run(INIT, actions), fd);
  }

  /** For good: whatever happens next, the entry stays. */
  lemma {:induction false} StaleEntryStays(s: State, actions: seq<Action>, fd: Fd)
    requires ValidRun(s, actions) && fd in s.table && In(s, fd, Down)
    ensures fd in Run(s, actions).table && In(Run(s, actions), fd, Down)
    decreases |actions|
  {
    if actions != [] {
      StaleEntryStays(s, actions[..|actions| - 1], fd);
    }
  }

  lemma RunSnoc(s: State, actions: seq<Action>, a: Action)
    requires ValidRun(s, actions) && Enabled(Run(s, actions), a)
    ensures ValidRun(s, actions + [a]) && Run(s, actions + [a]) == Step(Run(s, actions), a)
  {
    assert (actions + [a])[..|actions + [a]| - 1] == actions;
  }

  /** Such a run exists: the client disconnects while the accepting thread is between its two halves. */
  lemma StaleEntryHappens()
    ensures exists actions ::
              ValidRun(INIT, actions) && 3 in Run(INIT, actions).table && In(Run(INIT, actions), 3, Down)
  {
    hide Run, ValidRun;
    var r: seq<Action> := [];
    NoActions();
    r := Extend(r, Accept(3));
    r := Extend(r, Establish(3));
    r := Extend(r, NotifyUp(3));
    r := Extend(r, BeginClose(3));
    r := Extend(r, Erase(3));
    r := Extend(r, NotifyDown(3));
    r := Extend(r, EndClose(3));
    r := Extend(r, Insert(3));
  }

  lemma NoActions()
    ensures ValidRun(INIT, []) && Run(INIT, []) == INIT
  {
  }

  lemma Extend(r: seq<Action>, a: Action) returns (r': seq<Action>)
    requires ValidRun(INIT, r) && Enabled(Run(INIT, r), a)
    ensures ValidRun(INIT, r') && Run(INIT, r') == Step(Run(INIT, r), a)
  {
    r' := r + [a];
    RunSnoc(INIT, r, a);
  }

  ghost function Live(s: State): set<Fd> {
    set fd | fd in s.phases && PastUp(s.phases[fd]) && !s.phases[fd].Told? && !s.phases[fd].Down?
  }

  /** Connect notifications minus disconnect notifications count the connections announced and not
      yet announced closed; with no callback in flight, exactly the connected ones. */
  lemma NotificationsBalance(actions: seq<Action>)
    requires ValidRun(INIT, actions)
    ensures var s := Run(INIT, actions);
            && s.connects == s.disconnects + |Live(s)|
            && ((forall fd :: fd in s.phases ==>
                   !s.phases[fd].Established? && !s.phases[fd].Closing? && !s.phases[fd].Erased?) ==>
                  forall fd :: fd in Live(s) <==> Connected(s, fd))
  {
    RunInv(actions);
    var s := Run(INIT, actions);
    assert Announced(s) == Revoked(s) + Live(s);
    assert Revoked(s) !! Live(s);
  }
}
