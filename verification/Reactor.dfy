/** The reactor as an object that threads share. Its methods run under interference: wherever
    other threads may act, or the code of a callback or task may call back into the reactor,
    Interfere plays an arbitrary burst of such actions. Every execution, whatever the bursts,
    is shown to be a run of ReactorProtocol, so the results proved there hold of `model`. */
module ReactorImpl {
  import opened ReactorProtocol

  datatype Caller = LoopThread | Foreign(id: ThreadId)

  /** A task that runInLoop ran at once: which, and all that had happened when it began. */
  datatype DirectRun = DirectRun(task: Task, begunAt: seq<Action>)

  class Reactor {
    var quit: bool
    var callingPendingTasks: bool
    var pendingTasks: seq<Task>
    /** The value of the eventfd. */
    var wakeupCounter: nat

    // Where each thread stands.
    var pc: LoopPc
    var insideQueueInLoop: bool
    var owing: set<ThreadId>

    ghost var trace: seq<Action>
    ghost var model: State
    ghost var ranDirectly: seq<DirectRun>

    ghost predicate Recorded()
      reads this
    {
      ValidRun(INIT, trace) && model == Run(INIT, trace) && Inv(model)
    }

    ghost predicate Valid()
      reads this
    {
      && Recorded()
      && quit == model.quit
      && callingPendingTasks == model.calling
      && pendingTasks == model.pending
      && wakeupCounter == model.counter
      && pc == model.pc
      && insideQueueInLoop == model.loopOwes
      && owing == model.owing
    }

    /** How many iterations the loop has begun, or found itself told to quit. */
    ghost function Tests(): nat
      reads this`trace
    {
      QuitTests(trace)
    }

    /** What has happened since is not the loop thread's own progress. */
    twostate predicate Elsewhere()
      reads this
    {
      && pc == old(pc)
      && ranDirectly == old(ranDirectly)
      && old(trace) <= trace
      && Tests() == old(Tests())
      && model.batch == old(model.batch)
      && model.next == old(model.next)
      && model.executed == old(model.executed)
    }

    constructor ()
      ensures Valid() && trace == [] && pc.NotStarted? && ranDirectly == []
    {
      quit, callingPendingTasks := false, false;
      pendingTasks, wakeupCounter := [], 0;
      pc, insideQueueInLoop, owing := NotStarted, false, {};
      trace, model, ranDirectly := [], INIT, [];
    }

    ghost method Record(a: Action)
      requires Recorded() && Enabled(model, a)
      modifies this`trace, this`model
      ensures Recorded() && trace == old(trace) + [a] && model == Step(old(model), a)
      ensures Tests() == old(Tests()) + if a.TestQuit? then 1 else 0
    {
      QuitTestsSnoc(trace, a);
      RunSnoc(INIT, trace, a);
      StepKeepsInv(model, a);
      trace := trace + [a];
      model := Step(model, a);
    }

    // ---------------------------------------------------------------- queueing and quitting

    predicate MayCall(caller: Caller)
      reads this
    {
      match caller
      case LoopThread => InCallerCode(pc) && !insideQueueInLoop
      case Foreign(id) => id !in owing
    }

    static function PushAction(caller: Caller, task: Task): Action {
      match caller
      case LoopThread => LoopPush(task)
      case Foreign(id) => ForeignPush(id, task)
    }

    static function WriteAction(caller: Caller): Action {
      match caller
      case LoopThread => LoopWrite
      case Foreign(id) => ForeignWrite(id)
    }

    static function QuitAction(caller: Caller): Action {
      match caller
      case LoopThread => LoopQuit
      case Foreign(id) => ForeignQuit(id)
    }

    /** The write to the eventfd: the kernel adds one, or refuses when the counter is full. */
    method Wakeup(caller: Caller)
      requires Valid()
      requires if caller.LoopThread? then insideQueueInLoop else caller.id in owing
      modifies this
      ensures Valid() && Elsewhere()
      ensures wakeupCounter == old(wakeupCounter) + if old(wakeupCounter) < 0xffff_ffff_ffff_fffe then 1 else 0
      ensures trace == old(trace) + [WriteAction(caller)]
      ensures model == Step(old(model), WriteAction(caller))
    {
      hide Run, ValidRun, Tests;
      Record(WriteAction(caller));
      if wakeupCounter < MAX_COUNTER {
        wakeupCounter := wakeupCounter + 1;
      }
      match caller
      case LoopThread => insideQueueInLoop := false;
      case Foreign(id) => owing := owing - {id};
    }

    /** The critical section of queueInLoop, and the test that follows it. */
    method PushPending(caller: Caller, task: Task) returns (mustWake: bool)
      requires Valid() && MayCall(caller)
      modifies this
      ensures Valid() && Elsewhere()
      ensures mustWake == (caller.Foreign? || callingPendingTasks)
      ensures mustWake ==> if caller.LoopThread? then insideQueueInLoop else caller.id in owing
      ensures trace == old(trace) + [PushAction(caller, task)]
      ensures model == Step(old(model), PushAction(caller, task))
    {
      hide Run, ValidRun, Tests;
      Record(PushAction(caller, task));
      pendingTasks := pendingTasks + [task];
      match caller {
        case LoopThread =>
          mustWake := callingPendingTasks;
          insideQueueInLoop := mustWake;
        case Foreign(id) =>
          mustWake := true;
          owing := owing + {id};
      }
    }

    /** queueInLoop when nothing interferes between its two halves. */
    method QueueInLoop(caller: Caller, task: Task)
      requires Valid() && MayCall(caller)
      modifies this
      ensures Valid() && Elsewhere()
      ensures pendingTasks == old(pendingTasks) + [task]
      ensures caller.Foreign? || callingPendingTasks ==> wakeupCounter > 0
      ensures !(caller.Foreign? || callingPendingTasks) ==> wakeupCounter == old(wakeupCounter)
      ensures MayCall(caller)
    {
      hide Run, ValidRun, Tests;
      var mustWake := PushPending(caller, task);
      if mustWake {
        Wakeup(caller);
      }
    }

    /** runInLoop: on the loop thread the task begins at once, before anything else can happen, and
        is not queued; from another thread it is queued and the eventfd is left signalled. */
    method RunInLoop(caller: Caller, task: Task) returns (runNow: bool)
      requires Valid() && MayCall(caller)
      modifies this
      ensures Valid() && MayCall(caller)
      ensures pc == old(pc) && old(trace) <= trace
      ensures runNow == caller.LoopThread?
      ensures runNow ==> ranDirectly == old(ranDirectly) + [DirectRun(task, old(trace))]
      ensures !runNow ==> Elsewhere() && pendingTasks == old(pendingTasks) + [task] && wakeupCounter > 0
    {
      hide Run, ValidRun, Tests;
      runNow := caller.LoopThread?;
      if runNow {
        RunDirectly(task);
      } else {
        QueueInLoop(caller, task);
      }
    }

    /** The call of the task itself, whose code may call back into the reactor. */
    method RunDirectly(task: Task)
      requires Valid() && MayCall(LoopThread)
      modifies this
      ensures Valid() && MayCall(LoopThread)
      ensures pc == old(pc) && old(trace) <= trace
      ensures ranDirectly == old(ranDirectly) + [DirectRun(task, old(trace))]
    {
      hide Run, ValidRun, Tests;
      ranDirectly := ranDirectly + [DirectRun(task, trace)];
      RunCode();
    }

    /** Code of a callback or task, from call to return: when it returns it owes no wakeup. */
    method RunCode()
      requires Valid()
      modifies this
      ensures Valid() && Elsewhere() && !insideQueueInLoop
    {
      hide Run, ValidRun, Tests;
      Interfere();
      if insideQueueInLoop {
        Wakeup(LoopThread);
      }
    }

    /** Sets quit_; a foreign caller then owes a wakeup. */
    method SetQuit(caller: Caller)
      requires Valid() && MayCall(caller)
      modifies this
      ensures Valid() && Elsewhere() && quit
      ensures caller.Foreign? ==> caller.id in owing
      ensures trace == old(trace) + [QuitAction(caller)]
      ensures model == Step(old(model), QuitAction(caller))
    {
      hide Run, ValidRun, Tests;
      Record(QuitAction(caller));
      quit := true;
      if caller.Foreign? {
        owing := owing + {caller.id};
      }
    }

    /** quit: sets quit_, then signals unless the caller is the loop thread. */
    method Quit(caller: Caller)
      requires Valid() && MayCall(caller)
      modifies this
      ensures Valid() && Elsewhere() && MayCall(caller)
      ensures quit && pendingTasks == old(pendingTasks)
      ensures caller.Foreign? ==> wakeupCounter > 0
      ensures caller.LoopThread? ==> wakeupCounter == old(wakeupCounter)
    {
      hide Run, ValidRun, Tests;
      SetQuit(caller);
      if caller.Foreign? {
        Wakeup(caller);
      }
    }

    // ---------------------------------------------------------------- interference

    /** Plays one action of a foreign thread or of the caller's code, if it can happen now. */
    method Perform(a: Action)
      requires Valid()
      modifies this
      ensures Valid() && Elsewhere()
    {
      hide Run, ValidRun, Tests;
      match a
      case ForeignPush(t, task) => if t !in owing { var _ := PushPending(Foreign(t), task); }
      case ForeignQuit(t) => if t !in owing { SetQuit(Foreign(t)); }
      case ForeignWrite(t) => if t in owing { Wakeup(Foreign(t)); }
      case LoopPush(task) =>
        if InCallerCode(pc) && !insideQueueInLoop { var _ := PushPending(LoopThread, task); }
      case LoopWrite => if insideQueueInLoop { Wakeup(LoopThread); }
      case LoopQuit => if InCallerCode(pc) && !insideQueueInLoop { SetQuit(LoopThread); }
      case _ =>
    }

    method Interfere()
      requires Valid()
      modifies this
      ensures Valid() && Elsewhere()
    {
      hide Run, ValidRun, Tests;
      var burst: seq<Action> := *;
      for i := 0 to |burst|
        invariant Valid() && Elsewhere()
      {
        Perform(burst[i]);
      }
    }

    // ---------------------------------------------------------------- the loop thread

    /** read(wakeup_fd_): takes the whole counter. */
    method HandleWakeup()
      requires Valid() && pc == Dispatching(true)
      modifies this
      ensures Valid() && pc == Dispatching(false) && wakeupCounter == 0
      ensures old(wakeupCounter) > 0
      ensures trace == old(trace) + [Action.HandleWakeup]
      ensures Tests() == old(Tests())
    {
      hide Run, ValidRun, Tests;
      Record(Action.HandleWakeup);
      wakeupCounter, pc := 0, Dispatching(false);
    }

    /** Waits for events. The kernel may report the eventfd only while its counter is positive;
        the wait may also end with other events, by timeout or by error. */
    method Poll()
      requires Valid() && pc.AtPoll?
      modifies this
      ensures Valid() && pc.Dispatching? && old(trace) < trace
      ensures Tests() == old(Tests())
    {
      hide Run, ValidRun, Tests;
      Interfere();
      var reported: bool := *;
      var ready := reported && wakeupCounter > 0;
      Record(PollReturn(ready));
      pc := Dispatching(ready);
    }

    /** Runs the callbacks of the active channels; the wakeup channel's place among them is arbitrary. */
    method Dispatch()
      requires Valid() && pc.Dispatching?
      modifies this
      ensures Valid() && pc.SetCalling? && old(trace) <= trace
      ensures Tests() == old(Tests())
    {
      hide Run, ValidRun, Tests;
      Interfere();
      if pc.wakeupListed {
        HandleWakeup();
      }
      Interfere();
      Record(EndDispatch);
      pc := SetCalling;
    }

    method RunTask(task: Task)
      requires Valid() && pc.NextTask? && model.next < |model.batch| && task == model.batch[model.next]
      modifies this
      ensures Valid() && pc.NextTask? && old(trace) <= trace
      ensures model.batch == old(model.batch) && model.next == old(model.next) + 1
      ensures model.executed == old(model.executed) + [task]
      ensures Tests() == old(Tests())
    {
      hide Run, ValidRun, Tests, Step, Inv;
      BeginTask(task);
      RunCode();
      EndTask();
    }

    method BeginTask(task: Task)
      requires Valid() && pc.NextTask? && model.next < |model.batch| && task == model.batch[model.next]
      modifies this
      ensures Valid() && pc.InTask? && old(trace) <= trace
      ensures model.batch == old(model.batch) && model.next == old(model.next) + 1
      ensures model.executed == old(model.executed) + [task]
      ensures Tests() == old(Tests())
    {
      hide Run, ValidRun, Tests;
      Record(Action.BeginTask);
      pc := InTask;
    }

    method EndTask()
      requires Valid() && pc.InTask? && !insideQueueInLoop
      modifies this
      ensures Valid() && pc.NextTask? && old(trace) <= trace
      ensures model.batch == old(model.batch) && model.next == old(model.next)
      ensures model.executed == old(model.executed)
      ensures Tests() == old(Tests())
    {
      hide Run, ValidRun, Tests;
      Record(Action.EndTask);
      pc := NextTask;
    }

    /** The batch is what the queue held at the swap; each of its tasks runs once, in order. */
    method DoPendingTasks()
      requires Valid() && pc.SetCalling?
      modifies this
      ensures Valid() && pc.CheckQuit? && old(trace) < trace
      ensures !callingPendingTasks
      ensures old(model.enqueued) <= model.executed
      ensures Tests() == old(Tests())
    {
      hide Run, ValidRun, Tests, Step, Inv;
      ghost var first := trace;
      BeginCalling();
      Interfere();
      var tasks := TakeBatch();
      for i := 0 to |tasks|
        invariant Valid() && pc.NextTask? && first < trace && Tests() == old(Tests())
        invariant model.batch == tasks && model.next == i
      {
        Interfere();
        RunTask(tasks[i]);
      }
      Interfere();
      EndCalling();
      QueuedBeforeSwapIsRunBy(first, trace);
    }

    method BeginCalling()
      requires Valid() && pc.SetCalling?
      modifies this
      ensures Valid() && pc.SwapQueue? && callingPendingTasks && old(trace) < trace
      ensures Tests() == old(Tests())
    {
      hide Run, ValidRun, Tests;
      Record(MarkCalling);
      callingPendingTasks, pc := true, SwapQueue;
    }

    method EndCalling()
      requires Valid() && pc.NextTask? && model.next == |model.batch|
      modifies this
      ensures Valid() && pc.CheckQuit? && !callingPendingTasks && old(trace) < trace
      ensures Tests() == old(Tests())
    {
      hide Run, ValidRun, Tests;
      Record(UnmarkCalling);
      callingPendingTasks, pc := false, CheckQuit;
    }

    method StartLooping()
      requires Valid() && pc.NotStarted? && !quit
      modifies this
      ensures Valid() && old(trace) < trace && pc.CheckQuit?
      ensures Tests() == old(Tests())
    {
      hide Run, ValidRun, Tests;
      Record(Start);
      pc := CheckQuit;
    }

    method TestQuit()
      requires Valid() && pc.CheckQuit?
      modifies this
      ensures Valid() && old(trace) < trace && quit == old(quit)
      ensures pc == if quit then Exited else AtPoll
      ensures Tests() == old(Tests()) + 1 && model.executed == old(model.executed)
    {
      hide Run, ValidRun, Tests;
      Record(Action.TestQuit);
      pc := if quit then Exited else AtPoll;
    }

    method TakeBatch() returns (tasks: seq<Task>)
      requires Valid() && pc.SwapQueue?
      modifies this
      ensures Valid() && pc.NextTask? && old(trace) < trace
      ensures tasks == old(pendingTasks) && pendingTasks == []
      ensures model.batch == tasks && model.next == 0
      ensures Tests() == old(Tests())
    {
      hide Run, ValidRun, Tests;
      Record(Swap);
      tasks := pendingTasks;
      pendingTasks, pc := [], NextTask;
    }

    /** loop(), followed for at most `rounds` iterations. When it returns because quit_ was seen,
        every task ever queued has run except the tail still in the queue. Otherwise it has gone
        through `rounds` iterations, and any of them runs all that was queued before the loop. */
    method Loop(rounds: nat) returns (exited: bool)
      requires Valid() && pc.NotStarted? && !quit
      modifies this
      ensures Valid() && old(trace) < trace
      ensures if exited then pc.Exited? && quit else pc.CheckQuit?
      ensures model.executed + pendingTasks == model.enqueued
      ensures if exited then old(Tests()) < Tests() <= old(Tests()) + rounds else Tests() == old(Tests()) + rounds
      ensures Tests() > old(Tests()) + (if exited then 1 else 0) ==> old(model.enqueued) <= model.executed
    {
      hide Run, ValidRun, Tests, Inv, Step;
      StartLooping();
      exited := false;
      var left := rounds;
      while left > 0 && !exited
        invariant Valid() && old(trace) < trace
        invariant if exited then pc.Exited? && quit else pc.CheckQuit?
        invariant 0 <= left <= rounds && Tests() == old(Tests()) + (rounds - left)
        invariant exited ==> left < rounds
        invariant rounds - left > (if exited then 1 else 0) ==> old(model.enqueued) <= model.executed
      {
        Interfere();
        TestQuit();
        if quit {
          exited := true;
        } else {
          Poll();
          Dispatch();
          RunGrows(INIT, old(trace), trace);
          DoPendingTasks();
        }
        left := left - 1;
      }
      IdleFifo(model);
    }
  }
}
