/** The task queue and wakeup protocol of one reactor, as a state machine whose
    steps are the atomic actions of the loop thread and of any number of foreign
    threads. A run is any sequence of enabled actions. */
module ReactorProtocol {
  type Task = nat
  type ThreadId = nat

  /** Where the loop thread is inside loop() and doPendingTasks(). */
  datatype LoopPc =
    | NotStarted
    | CheckQuit
    | AtPoll
    | Dispatching(wakeupListed: bool)
    | SetCalling
    | SwapQueue
    | NextTask
    | InTask
    | Exited

  /** The first group are the reactor's fields and the kernel's eventfd counter,
      the second the threads' program counters, the third is history that no step reads. */
  datatype State = State(
    quit: bool,
    calling: bool,
    pending: seq<Task>,
    counter: nat,

    pc: LoopPc,
    batch: seq<Task>,
    next: nat,
    loopOwes: bool,
    owing: set<ThreadId>,

    enqueued: seq<Task>,
    executed: seq<Task>,
    early: bool,
    signalled: bool,
    polled: bool,
    pollsAfterQuit: nat
  )

  const INIT: State :=
    State(false, false, [], 0, NotStarted, [], 0, false, {}, [], [], false, false, false, 0)

  datatype Action =
    | ForeignPush(thread: ThreadId, task: Task)
    | ForeignQuit(thread: ThreadId)
    | ForeignWrite(thread: ThreadId)
    | LoopPush(task: Task)
    | LoopWrite
    | LoopQuit
    | Start
    | TestQuit
    | PollReturn(wakeupReady: bool)
    | HandleWakeup
    | EndDispatch
    | MarkCalling
    | Swap
    | BeginTask
    | EndTask
    | UnmarkCalling

  /** Largest value an eventfd counter can hold; a write past it fails with EAGAIN. */
  const MAX_COUNTER: nat := 0xffff_ffff_ffff_fffe

  function CounterAfterWrite(counter: nat): nat {
    if counter < MAX_COUNTER then counter + 1 else counter
  }

  /** The loop thread runs caller code before loop(), in channel callbacks, in tasks and after loop(). */
  predicate InCallerCode(pc: LoopPc) {
    pc.NotStarted? || pc.Dispatching? || pc.InTask? || pc.Exited?
  }

  predicate Enabled(s: State, a: Action) {
    match a
    case ForeignPush(t, _) => t !in s.owing
    case ForeignQuit(t) => t !in s.owing
    case ForeignWrite(t) => t in s.owing
    case LoopPush(_) => InCallerCode(s.pc) && !s.loopOwes
    case LoopWrite => s.loopOwes
    case LoopQuit => InCallerCode(s.pc) && !s.loopOwes
    case Start => s.pc.NotStarted? && !s.quit
    case TestQuit => s.pc.CheckQuit?
    case PollReturn(ready) => s.pc.AtPoll? && (ready ==> s.counter > 0)
    case HandleWakeup => s.pc == Dispatching(true)
    case EndDispatch => s.pc == Dispatching(false)
    case MarkCalling => s.pc.SetCalling?
    case Swap => s.pc.SwapQueue?
    case BeginTask => s.pc.NextTask? && s.next < |s.batch|
    case EndTask => s.pc.InTask? && !s.loopOwes
    case UnmarkCalling => s.pc.NextTask? && s.next == |s.batch|
  }

  function Step(s: State, a: Action): State
    requires Enabled(s, a)
  {
    match a
    case ForeignPush(t, task) =>
      s.(pending := s.pending + [task], enqueued := s.enqueued + [task],
         owing := s.owing + {t}, signalled := true)
    case ForeignQuit(t) => s.(quit := true, owing := s.owing + {t}, signalled := true)
    case ForeignWrite(t) => s.(counter := CounterAfterWrite(s.counter), owing := s.owing - {t})
    case LoopPush(task) =>
      s.(pending := s.pending + [task], enqueued := s.enqueued + [task],
         loopOwes := s.calling, early := s.early || s.pc.NotStarted?)
    case LoopWrite => s.(counter := CounterAfterWrite(s.counter), loopOwes := false)
    case LoopQuit => s.(quit := true)
    case Start => s.(pc := CheckQuit)
    case TestQuit => s.(pc := if s.quit then Exited else AtPoll)
    case PollReturn(ready) =>
      s.(pc := Dispatching(ready), polled := true,
         pollsAfterQuit := s.pollsAfterQuit + if s.quit then 1 else 0)
    case HandleWakeup => s.(pc := Dispatching(false), counter := 0)
    case EndDispatch => s.(pc := SetCalling)
    case MarkCalling => s.(pc := SwapQueue, calling := true)
    case Swap => s.(pc := NextTask, batch := s.pending, next := 0, pending := [])
    case BeginTask =>
      s.(pc := InTask, next := s.next + 1, executed := s.executed + [s.batch[s.next]])
    case EndTask => s.(pc := NextTask)
    case UnmarkCalling => s.(pc := CheckQuit, calling := false)
  }

  // ---------------------------------------------------------------- runs

  /** Every action of the trace is enabled when its turn comes. */
  predicate ValidRun(s: State, trace: seq<Action>)
    decreases |trace|, 0
  {
    |trace| == 0 ||
    (var before := trace[..|trace| - 1];
     ValidRun(s, before) && Enabled(Run(s, before), trace[|trace| - 1]))
  }

  function Run(s: State, trace: seq<Action>): State
    requires ValidRun(s, trace)
    decreases |trace|, 1
  {
    if |trace| == 0 then s
    else Step(Run(s, trace[..|trace| - 1]), trace[|trace| - 1])
  }

  ghost predicate Reachable(s: State) {
    exists trace :: ValidRun(INIT, trace) && Run(INIT, trace) == s
  }

  lemma RunSnoc(s: State, trace: seq<Action>, a: Action)
    requires ValidRun(s, trace) && Enabled(Run(s, trace), a)
    ensures ValidRun(s, trace + [a])
    ensures Run(s, trace + [a]) == Step(Run(s, trace), a)
  {
    assert (trace + [a])[..|trace + [a]| - 1] == trace;
  }

  /** A run that extends another is a run from where the other ended. */
  lemma {:induction false} RunConcat(s: State, first: seq<Action>, rest: seq<Action>)
    requires ValidRun(s, first + rest)
    ensures ValidRun(s, first)
    ensures ValidRun(Run(s, first), rest)
    ensures Run(s, first + rest) == Run(Run(s, first), rest)
    decreases |rest|
  {
    hide Step, Enabled;
    if |rest| == 0 {
      assert first + rest == first;
    } else {
      var before, a := rest[..|rest| - 1], rest[|rest| - 1];
      var whole := first + rest;
      assert whole[..|whole| - 1] == first + before;
      assert whole[|whole| - 1] == a;
      RunConcat(s, first, before);
      assert before + [a] == rest;
      RunSnoc(Run(s, first), before, a);
    }
  }

  /** How often the loop has tested quit_: once at the top of each iteration. */
  function QuitTests(trace: seq<Action>): nat {
    if |trace| == 0 then 0
    else QuitTests(trace[..|trace| - 1]) + if trace[|trace| - 1].TestQuit? then 1 else 0
  }

  lemma QuitTestsSnoc(trace: seq<Action>, a: Action)
    ensures QuitTests(trace + [a]) == QuitTests(trace) + if a.TestQuit? then 1 else 0
  {
    assert (trace + [a])[..|trace + [a]| - 1] == trace;
  }

  lemma StepGrows(s: State, a: Action)
    requires Enabled(s, a)
    ensures Step(s, a).enqueued ==
            if a.ForeignPush? || a.LoopPush? then s.enqueued + [a.task] else s.enqueued
  {
  }

  /** What has been queued stays queued or run. */
  lemma {:induction false} RunGrows(s: State, first: seq<Action>, trace: seq<Action>)
    requires ValidRun(s, trace) && first <= trace
    ensures ValidRun(s, first) && Run(s, first).enqueued <= Run(s, trace).enqueued
    decreases |trace|
  {
    hide Step, Enabled;
    if first != trace {
      var before := trace[..|trace| - 1];
      RunGrows(s, first, before);
      StepGrows(Run(s, before), trace[|trace| - 1]);
    }
  }

  // ---------------------------------------------------------------- the invariant

  /** Between these points a push needs no wakeup: the swap is still ahead of the loop. */
  predicate BeforeSwap(pc: LoopPc) {
    pc.Dispatching? || pc.SetCalling? || pc.SwapQueue?
  }

  predicate CallingPc(pc: LoopPc) {
    pc.SwapQueue? || pc.NextTask? || pc.InTask?
  }

  predicate FifoInv(s: State) {
    && s.next <= |s.batch|
    && s.executed + s.batch[s.next..] + s.pending == s.enqueued
    && (!s.pc.NextTask? && !s.pc.InTask? ==> s.next == |s.batch|)
  }

  predicate ControlInv(s: State) {
    && (s.calling <==> CallingPc(s.pc))
    && (s.loopOwes ==> s.pc.InTask?)
    && (s.pc == Dispatching(true) ==> s.counter > 0)
    && (!s.polled ==> s.pc.NotStarted? || s.pc.CheckQuit? || s.pc.AtPoll? || s.pc.Exited?)
    && (s.pc.NotStarted? ==> !s.polled)
  }

  /** Somebody has signalled the loop, or is about to. */
  predicate Signal(s: State) {
    s.counter > 0 || s.owing != {} || s.loopOwes
  }

  predicate WakeInv(s: State) {
    && (s.pending != [] && !BeforeSwap(s.pc) && !s.pc.Exited? ==>
          Signal(s) || (s.early && !s.polled))
    && (s.quit && s.pc.AtPoll? ==> s.counter > 0 || s.owing != {})
    && (s.pollsAfterQuit > 0 ==> s.quit && !s.pc.AtPoll? && s.pollsAfterQuit == 1)
  }

  /** Before the first poll returns nothing has consumed a signal or a task. */
  predicate FirstPollInv(s: State) {
    && (!s.signalled ==> s.owing == {})
    && (!s.polled && !s.signalled ==> s.counter == 0)
    && (!s.polled && s.signalled ==> s.counter > 0 || s.owing != {})
    && (!s.polled && s.early ==> s.pending != [])
  }

  predicate Inv(s: State) {
    FifoInv(s) && ControlInv(s) && WakeInv(s) && FirstPollInv(s)
  }

  lemma PushKeepsOrder(done: seq<Task>, pending: seq<Task>, enqueued: seq<Task>, task: Task)
    requires done + pending == enqueued
    ensures done + (pending + [task]) == enqueued + [task]
  {
  }

  lemma StepKeepsFifo(s: State, a: Action)
    requires FifoInv(s) && Enabled(s, a)
    ensures FifoInv(Step(s, a))
  {
    var s' := Step(s, a);
    match a
    case ForeignPush(_, task) => PushKeepsOrder(s.executed + s.batch[s.next..], s.pending, s.enqueued, task);
    case LoopPush(task) => PushKeepsOrder(s.executed + s.batch[s.next..], s.pending, s.enqueued, task);
    case Swap =>
      assert s.batch[s.next..] == [];
      assert s'.batch[s'.next..] == s.pending;
    case BeginTask =>
      assert s.batch[s.next..] == [s.batch[s.next]] + s.batch[s'.next..];
      assert s.executed + s.batch[s.next..] == s'.executed + s'.batch[s'.next..];
    case _ =>
  }

  lemma StepKeepsControl(s: State, a: Action)
    requires ControlInv(s) && Enabled(s, a)
    ensures ControlInv(Step(s, a))
  {
    // By cases on the action.
    match a
    case PollReturn(_) =>
    case _ =>
  }

  lemma StepKeepsWake(s: State, a: Action)
    requires ControlInv(s) && WakeInv(s) && Enabled(s, a)
    ensures WakeInv(Step(s, a))
  {
    match a
    case ForeignPush(t, _) => assert t in Step(s, a).owing;
    case ForeignQuit(t) => assert t in Step(s, a).owing;
    case _ =>
  }

  lemma StepKeepsFirstPoll(s: State, a: Action)
    requires ControlInv(s) && FirstPollInv(s) && Enabled(s, a)
    ensures FirstPollInv(Step(s, a))
  {
    match a
    case ForeignPush(t, _) => assert t in Step(s, a).owing;
    case ForeignQuit(t) => assert t in Step(s, a).owing;
    case _ =>
  }

  lemma StepKeepsInv(s: State, a: Action)
    requires Inv(s) && Enabled(s, a)
    ensures Inv(Step(s, a))
  {
    hide Step, Enabled, FifoInv, ControlInv, WakeInv, FirstPollInv;
    StepKeepsFifo(s, a);
    StepKeepsControl(s, a);
    StepKeepsWake(s, a);
    StepKeepsFirstPoll(s, a);
  }

  lemma {:induction false} RunKeepsInv(s: State, trace: seq<Action>)
    requires Inv(s) && ValidRun(s, trace)
    ensures Inv(Run(s, trace))
  {
    if |trace| > 0 {
      var before := trace[..|trace| - 1];
      RunKeepsInv(s, before);
      StepKeepsInv(Run(s, before), trace[|trace| - 1]);
    }
  }

  lemma ReachableInv(s: State)
    requires Reachable(s)
    ensures Inv(s)
  {
    var trace :| ValidRun(INIT, trace) && Run(INIT, trace) == s;
    RunKeepsInv(INIT, trace);
  }

  // ---------------------------------------------------------------- main results

  /** The loop is blocked in poll, work is queued, and nobody has signalled it or is going to. */
  predicate Stranded(s: State) {
    s.pc.AtPoll? && s.pending != [] && !Signal(s)
  }

  /** The loop thread queues a task before it calls loop(). */
  predicate PushesBeforeStart(trace: seq<Action>) {
    exists i :: 0 <= i < |trace| && trace[i].LoopPush? && forall j :: 0 <= j < i ==> !trace[j].Start?
  }

  /** Some foreign thread calls queueInLoop or quit. */
  predicate ForeignCalls(trace: seq<Action>) {
    exists i :: 0 <= i < |trace| && (trace[i].ForeignPush? || trace[i].ForeignQuit?)
  }

  /** Some poll returns. */
  predicate PollReturns(trace: seq<Action>) {
    exists i :: 0 <= i < |trace| && trace[i].PollReturn?
  }

  predicate Starts(trace: seq<Action>) {
    exists i :: 0 <= i < |trace| && trace[i].Start?
  }

  /** The history flags say what the trace contains. */
  predicate FlagsTell(s: State, trace: seq<Action>) {
    && (s.pc.NotStarted? <==> !Starts(trace))
    && (s.early <==> PushesBeforeStart(trace))
    && (s.signalled <==> ForeignCalls(trace))
    && (s.polled <==> PollReturns(trace))
  }

  /** How one more action changes what the trace contains. */
  lemma TraceSnoc(before: seq<Action>, a: Action)
    ensures var trace := before + [a];
            && (Starts(trace) <==> Starts(before) || a.Start?)
            && (PushesBeforeStart(trace) <==> PushesBeforeStart(before) || (a.LoopPush? && !Starts(before)))
            && (ForeignCalls(trace) <==> ForeignCalls(before) || a.ForeignPush? || a.ForeignQuit?)
            && (PollReturns(trace) <==> PollReturns(before) || a.PollReturn?)
  {
    var trace, n := before + [a], |before|;
    assert trace[n] == a;
    assert forall i :: 0 <= i < n ==> trace[i] == before[i];
    if i :| 0 <= i < n && before[i].LoopPush? && forall j :: 0 <= j < i ==> !before[j].Start? {
      assert trace[i].LoopPush? && forall j :: 0 <= j < i ==> !trace[j].Start?;
    }
    if i :| 0 <= i < n && before[i].Start? {
      assert trace[i].Start?;
    }
    if i :| 0 <= i < n && (before[i].ForeignPush? || before[i].ForeignQuit?) {
      assert trace[i].ForeignPush? || trace[i].ForeignQuit?;
    }
    if i :| 0 <= i < n && before[i].PollReturn? {
      assert trace[i].PollReturn?;
    }
  }

  /** How one more action changes the flags. */
  lemma StepFlags(s: State, a: Action)
    requires Enabled(s, a)
    ensures var s' := Step(s, a);
            && (s'.pc.NotStarted? <==> s.pc.NotStarted? && !a.Start?)
            && (s'.early <==> s.early || (a.LoopPush? && s.pc.NotStarted?))
            && (s'.signalled <==> s.signalled || a.ForeignPush? || a.ForeignQuit?)
            && (s'.polled <==> s.polled || a.PollReturn?)
  {
    // By cases on the action.
    match a
    case PollReturn(_) =>
    case _ =>
  }

  lemma {:induction false} FlagsTellTrace(trace: seq<Action>)
    requires ValidRun(INIT, trace)
    ensures FlagsTell(Run(INIT, trace), trace)
  {
    if |trace| > 0 {
      var before, a := trace[..|trace| - 1], trace[|trace| - 1];
      FlagsTellTrace(before);
      StepFlags(Run(INIT, before), a);
      TraceSnoc(before, a);
      assert before + [a] == trace;
      hide Step, Enabled, Starts, PushesBeforeStart, ForeignCalls, PollReturns;
    }
  }

  /** A task is stranded in a blocking poll exactly when, so far, the loop thread itself has queued
      one before calling loop(), no foreign thread has called in, and no poll has returned. In
      particular it never happens once a first poll has returned. */
  lemma NoLostWakeup(trace: seq<Action>)
    requires ValidRun(INIT, trace) && Run(INIT, trace).pc.AtPoll?
    ensures Stranded(Run(INIT, trace)) <==>
            PushesBeforeStart(trace) && !ForeignCalls(trace) && !PollReturns(trace)
  {
    RunKeepsInv(INIT, trace);
    FlagsTellTrace(trace);
  }

  /** The one family of runs that does strand a task, by its smallest member. */
  lemma EarlyTaskStrands()
    ensures exists s :: Reachable(s) && Stranded(s)
  {
    RunSnoc(INIT, [], LoopPush(7));
    RunSnoc(INIT, [] + [LoopPush(7)], Start);
    RunSnoc(INIT, [] + [LoopPush(7)] + [Start], TestQuit);
    var trace := [] + [LoopPush(7)] + [Start] + [TestQuit];
    var s := Run(INIT, trace);
    assert Reachable(s) && Stranded(s);
  }

  /** No task is lost, duplicated or reordered; at exit what was not run is the tail of the order. */
  lemma ExactlyOnceFifo(s: State)
    requires Reachable(s)
    ensures s.next <= |s.batch|
    ensures s.executed + s.batch[s.next..] + s.pending == s.enqueued
    ensures s.pc.Exited? ==> s.executed + s.pending == s.enqueued
  {
    ReachableInv(s);
    if s.pc.Exited? {
      IdleFifo(s);
    }
  }

  /** Between iterations, and after the last, everything queued has run except the queue itself. */
  lemma IdleFifo(s: State)
    requires Inv(s) && (s.pc.CheckQuit? || s.pc.Exited?)
    ensures s.executed + s.pending == s.enqueued
  {
    assert s.batch[s.next..] == [];
    assert s.executed + [] == s.executed;
  }

  /** Code on the loop thread may queue and quit before loop(), in a callback, in a task and after
      loop(); it then owes itself a wakeup exactly when it queues from inside a task. */
  lemma CallerCodeMayQueue(s: State, task: Task)
    requires Reachable(s)
    requires s.pc.NotStarted? || s.pc.Dispatching? || (s.pc.InTask? && !s.loopOwes) || s.pc.Exited?
    ensures Enabled(s, LoopQuit) && Enabled(s, LoopPush(task))
    ensures var s' := Step(s, LoopPush(task));
            && s'.pending == s.pending + [task]
            && (s'.loopOwes <==> s.pc.InTask?)
            && s'.counter == s.counter
  {
    ReachableInv(s);
  }

  /** handleWakeup never reads an empty eventfd, so its read cannot fail with EAGAIN. */
  lemma WakeupReadSucceeds(s: State)
    requires Reachable(s) && Enabled(s, HandleWakeup)
    ensures s.counter > 0
  {
    ReachableInv(s);
  }

  /** quit_ is never missed: a poll entered or pending when quit is set cannot block for good,
      and at most one poll returns afterwards. */
  lemma QuitIsNeverMissed(s: State)
    requires Reachable(s) && s.quit
    ensures s.pc.AtPoll? ==> s.counter > 0 || s.owing != {}
    ensures s.pollsAfterQuit <= 1
  {
    ReachableInv(s);
  }

  // ---------------------------------------------------------------- bounded iterations

  predicate IsControl(a: Action) {
    a.Start? || a.TestQuit? || a.PollReturn? || a.HandleWakeup? || a.EndDispatch? ||
    a.MarkCalling? || a.Swap? || a.BeginTask? || a.EndTask? || a.UnmarkCalling?
  }

  /** Number of actions of the trace that move the loop thread along loop(). */
  function ControlSteps(trace: seq<Action>): nat {
    if |trace| == 0 then 0
    else ControlSteps(trace[..|trace| - 1]) + if IsControl(trace[|trace| - 1]) then 1 else 0
  }

  /** Number of batches the trace takes from the queue. */
  function Swaps(trace: seq<Action>): nat {
    if |trace| == 0 then 0
    else Swaps(trace[..|trace| - 1]) + if trace[|trace| - 1].Swap? then 1 else 0
  }

  /** Whether the iteration in progress still has its swap to do. */
  function SwapsAhead(pc: LoopPc): nat {
    if SwapAhead(pc) then 1 else 0
  }

  predicate NoQuitTest(trace: seq<Action>) {
    forall i :: 0 <= i < |trace| ==> !trace[i].TestQuit?
  }

  /** Distance to the end of the iteration, when no task is left to run. */
  function PhaseInIteration(pc: LoopPc): nat {
    match pc
    case NotStarted => 2
    case AtPoll => 6
    case Dispatching(listed) => if listed then 5 else 4
    case SetCalling => 3
    case SwapQueue => 2
    case InTask => 2
    case NextTask => 1
    case CheckQuit => 0
    case Exited => 0
  }

  /** Distance to the end of loop() once quit_ is set. */
  function PhaseToExit(pc: LoopPc): nat {
    match pc
    case NotStarted => 2
    case Exited => 0
    case CheckQuit => 1
    case _ => 1 + PhaseInIteration(pc)
  }

  lemma StepInIteration(s: State, a: Action)
    requires Enabled(s, a) && !a.TestQuit? && !s.pc.NotStarted?
    ensures var s' := Step(s, a);
            && |s'.executed| >= |s.executed|
            && !s'.pc.NotStarted?
            && (if IsControl(a) then 1 else 0) + PhaseInIteration(s'.pc)
               <= PhaseInIteration(s.pc) + 2 * (|s'.executed| - |s.executed|)
  {
    match a
    case BeginTask => assert Step(s, a).executed == s.executed + [s.batch[s.next]];
    case PollReturn(_) =>
    case _ =>
  }

  lemma StepToExit(s: State, a: Action)
    requires Enabled(s, a) && s.quit
    ensures var s' := Step(s, a);
            && s'.quit
            && |s'.executed| >= |s.executed|
            && (if IsControl(a) then 1 else 0) + PhaseToExit(s'.pc)
               <= PhaseToExit(s.pc) + 2 * (|s'.executed| - |s.executed|)
            && (if a.Swap? then 1 else 0) + SwapsAhead(s'.pc) <= SwapsAhead(s.pc)
  {
    match a
    case BeginTask => assert Step(s, a).executed == s.executed + [s.batch[s.next]];
    case PollReturn(_) =>
    case _ =>
  }

  lemma StepInBatch(s: State, a: Action)
    requires Enabled(s, a) && !a.Swap? && s.next <= |s.batch|
    ensures var s' := Step(s, a);
            && s'.batch == s.batch
            && s.next <= s'.next <= |s.batch|
            && s'.executed == s.executed + s.batch[s.next..s'.next]
  {
    assert s.batch[s.next..s.next] == [];
    match a
    case BeginTask => assert s.batch[s.next..s.next + 1] == [s.batch[s.next]];
    case _ =>
  }

  /** One iteration takes a bounded number of loop steps: six, plus two for each task it runs,
      whatever the tasks and the other threads queue meanwhile. */
  lemma {:induction false} IterationIsBounded(s: State, trace: seq<Action>)
    requires ValidRun(s, trace) && NoQuitTest(trace) && !s.pc.NotStarted?
    ensures var s' := Run(s, trace);
            && |s'.executed| >= |s.executed|
            && !s'.pc.NotStarted?
            && ControlSteps(trace) + PhaseInIteration(s'.pc)
               <= PhaseInIteration(s.pc) + 2 * (|s'.executed| - |s.executed|)
  {
    if |trace| > 0 {
      var before, a := trace[..|trace| - 1], trace[|trace| - 1];
      IterationIsBounded(s, before);
      StepInIteration(Run(s, before), a);
    }
  }

  /** After the swap an iteration runs only tasks of its batch, at most once each. */
  lemma {:induction false} BatchIsFixed(s: State, trace: seq<Action>)
    requires s.next <= |s.batch| && ValidRun(s, trace)
    requires forall i :: 0 <= i < |trace| ==> !trace[i].Swap?
    ensures var s' := Run(s, trace);
            && s'.batch == s.batch
            && s.next <= s'.next <= |s.batch|
            && s'.executed == s.executed + s.batch[s.next..s'.next]
  {
    if |trace| == 0 {
      assert s.batch[s.next..s.next] == [];
    } else {
      var before, a := trace[..|trace| - 1], trace[|trace| - 1];
      BatchIsFixed(s, before);
      var m := Run(s, before);
      StepInBatch(m, a);
      var s' := Step(m, a);
      assert s.batch[s.next..s'.next] == s.batch[s.next..m.next] + s.batch[m.next..s'.next];
    }
  }

  /** From the moment quit_ is set the loop thread takes a bounded number of steps: at most
      seven, plus two for each task it still runs, and it takes at most one more batch to run. */
  lemma {:induction false} QuitBoundsTheLoop(s: State, trace: seq<Action>)
    requires s.quit && ValidRun(s, trace)
    ensures var s' := Run(s, trace);
            && s'.quit
            && |s'.executed| >= |s.executed|
            && ControlSteps(trace) + PhaseToExit(s'.pc)
               <= PhaseToExit(s.pc) + 2 * (|s'.executed| - |s.executed|)
            && Swaps(trace) + SwapsAhead(s'.pc) <= SwapsAhead(s.pc) <= 1
    ensures PhaseToExit(s.pc) <= 7
  {
    if |trace| > 0 {
      var before := trace[..|trace| - 1];
      QuitBoundsTheLoop(s, before);
      StepToExit(Run(s, before), trace[|trace| - 1]);
    }
  }

  /** Tasks already run or certain to be run by the batch in progress. */
  function Committed(s: State): seq<Task>
    requires FifoInv(s)
  {
    s.executed + s.batch[s.next..]
  }

  predicate SwapAhead(pc: LoopPc) {
    pc.AtPoll? || BeforeSwap(pc)
  }

  /** Only the swap commits tasks; nothing uncommits one. */
  lemma StepCommits(s: State, a: Action)
    requires FifoInv(s) && Enabled(s, a) && FifoInv(Step(s, a))
    ensures Committed(Step(s, a)) == if a.Swap? then s.enqueued else Committed(s)
    ensures s.enqueued <= Step(s, a).enqueued
  {
    var s' := Step(s, a);
    match a
    case Swap =>
      assert s.batch[s.next..] == [];
      assert s'.batch[0..] == s.pending;
      assert s.executed + [] == s.executed;
    case BeginTask =>
      assert s.batch[s.next..] == [s.batch[s.next]] + s.batch[s'.next..];
      assert Committed(s') == Committed(s);
    case _ =>
  }

  /** The loop passes the swap only by doing it, and comes back before it only by testing quit_. */
  lemma StepPastSwap(s: State, a: Action)
    requires Enabled(s, a) && !s.pc.NotStarted?
    ensures !Step(s, a).pc.NotStarted?
    ensures SwapAhead(Step(s, a).pc) && !SwapAhead(s.pc) ==> a.TestQuit?
    ensures !SwapAhead(Step(s, a).pc) && SwapAhead(s.pc) ==> a.Swap?
  {
    // By cases on the action.
    match a
    case TestQuit =>
    case _ =>
  }

  /** A swap on the way commits everything that was queued at the start. */
  lemma {:induction false} RunCommits(s: State, trace: seq<Action>)
    requires Inv(s) && ValidRun(s, trace)
    ensures var s' := Run(s, trace);
            && Inv(s')
            && s.enqueued <= s'.enqueued
            && Committed(s) <= Committed(s')
            && (Swaps(trace) > 0 ==> s.enqueued <= Committed(s'))
  {
    if |trace| > 0 {
      var before, a := trace[..|trace| - 1], trace[|trace| - 1];
      RunCommits(s, before);
      var m := Run(s, before);
      StepKeepsInv(m, a);
      StepCommits(m, a);
      hide Step, Enabled;
      assert Committed(m) <= m.enqueued;
    }
  }

  /** A run that starts before the swap of an iteration and ends after it contains the swap. */
  lemma {:induction false} SwapOnTheWay(s: State, trace: seq<Action>)
    requires ValidRun(s, trace) && !s.pc.NotStarted? && SwapAhead(s.pc)
    ensures !Run(s, trace).pc.NotStarted?
    ensures SwapAhead(Run(s, trace).pc) || Swaps(trace) > 0
  {
    if |trace| > 0 {
      var before, a := trace[..|trace| - 1], trace[|trace| - 1];
      SwapOnTheWay(s, before);
      StepPastSwap(Run(s, before), a);
      hide Step, Enabled;
    }
  }

  /** Whatever is queued at any moment has been run, in order, by the first quit test (or exit)
      after the next swap. If the loop is waiting, dispatching or about to swap, that is its next
      quit test; if it is running a batch, for instance because a task queues itself again, it is
      the end of the next iteration. */
  lemma QueuedBeforeSwapIsRun(s: State, trace: seq<Action>)
    requires Reachable(s) && ValidRun(s, trace)
    requires Swaps(trace) > 0 || SwapAhead(s.pc)
    requires Run(s, trace).pc.CheckQuit? || Run(s, trace).pc.Exited?
    ensures s.enqueued <= Run(s, trace).executed
  {
    ReachableInv(s);
    RunCommits(s, trace);
    if SwapAhead(s.pc) {
      SwapOnTheWay(s, trace);
    }
    IdleCommitted(Run(s, trace));
  }

  lemma IdleCommitted(s: State)
    requires Inv(s) && (s.pc.CheckQuit? || s.pc.Exited?)
    ensures Committed(s) == s.executed
  {
    assert s.batch[s.next..] == [];
  }

  /** The same between two points of one run from the start. */
  lemma QueuedBeforeSwapIsRunBy(first: seq<Action>, trace: seq<Action>)
    requires first <= trace && ValidRun(INIT, trace) && ValidRun(INIT, first)
    requires SwapAhead(Run(INIT, first).pc) || Swaps(trace[|first|..]) > 0
    requires Run(INIT, trace).pc.CheckQuit? || Run(INIT, trace).pc.Exited?
    ensures Run(INIT, first).enqueued <= Run(INIT, trace).executed
  {
    hide Step, Enabled;
    var rest := trace[|first|..];
    assert first + rest == trace;
    RunConcat(INIT, first, rest);
    QueuedBeforeSwapIsRun(Run(INIT, first), rest);
  }
}
