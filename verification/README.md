# OrderEngine: a verified model of its reactor, connections, pollers, configuration and stock procedure

This project models the stateful cores of OrderEngine in Dafny and proves what they keep over
whole runs. Each core comes in two forms: a specification (a state machine, or functions on
values) about which the main results are proved, and, where the source changes things in place,
a class whose methods follow the source step by step and are shown to do what the
specification does.

`dafny verify dfyconfig.toml` checks everything.

## The parts

`Common.dfy` has the types and functions several parts share.

- **Reactor** (`ReactorProtocol.dfy`, `Reactor.dfy`). The loop thread and any number of foreign
  threads share the task queue, `quit_`, `calling_pending_tasks_` and an eventfd counter. A run is
  any sequence of enabled atomic steps; `wakeup` is a step of its own after the push it follows. The
  `Reactor` class runs `loop`, `doPendingTasks`, `queueInLoop`, `runInLoop` and `quit` as code, under
  arbitrary interference at every point where another thread or a callback may act, and every
  execution is shown to be a run of the protocol.
- **Connection** (`Connection.dfy`, `TcpConnection.dfy`). Buffers, the four states, and the
  history of bytes: taken by the kernel, accepted by `send`, read, delivered. Results of `read` and `write`
  and the behaviour of callbacks (including callbacks that send or close) are arbitrary.
- **Pollers** (`Poller.dfy`, `PollerImpl.dfy`). The epoll poller with its mirrored kernel list and
  three-valued index, the select poller with its vector, and the interest map both refine.
- **Server** (`ServerProtocol.dfy`, `RoundRobin.dfy`, `TcpServer.dfy`). The connection table under
  the interleaving of the accepting thread with the sub-reactors; the choice of sub-reactor on
  a 32-bit counter; the accept and broadcast loops.
- **Configuration** (`Strings.dfy`, `Ini.dfy`, `Decimal.dfy`, `Config.dfy`). The INI parser
  against a grammar of layouts, and the typed accessors.
- **Stock** (`Inventory.dfy`, `DecrementInventory.dfy`). The optimistic-lock procedure split into
  the statements other sessions can see, with the audit trigger and the cleanup event.

## Where the code does not do what one would expect

- `queueInLoop` called by the loop thread before `loop()` sends no wakeup, so the first poll can block
  with that task queued. `ReactorProtocol.NoLostWakeup` says exactly when; `EarlyTaskStrands` gives a run.
- `next_reactor_` wraps: after 2^31 connections the chosen index leaves the range for every pool of
  more than one thread (`RoundRobin.IndexLeavesRange`).
- A connection closed before the accepting thread inserts it stays in `connections_`
  (`ServerProtocol.StaleEntryExactlyWhen`, `StaleEntryHappens`).
- A channel whose index is kDeleted is still in select's exception set but not in epoll's list
  (`Poller.ErrorWatchDiffers`, `ErrorWatchDifferenceHappens`).
- Disabling events on a channel that is not in epoll's list (new, or disabled before) adds it there with an
  empty mask, where errors are still reported for it (`Poller.ChangeReachesKernel`).
- Under MySQL's default unsigned subtraction the audit trigger's `NEW - OLD` fails on every decrement, so
  `DecrementInventory` can only succeed for quantity 0. The model takes the mode as the parameter
  `signedDiff` (sql_mode NO_UNSIGNED_SUBTRACTION, which the column `quantity_change INT`
  presupposes); `Inventory.SucceedsExactlyWhen` and `UnsignedDiffGrantsNothing` state the difference.
- `setString` of an empty value reads back as the default (`ConfigStore.StringRoundTrip`).

Readings of the source: the thread running `loop` is the one that built the reactor, as
`assert(isInLoopThread())` demands (`TcpServer::start` does not respect it); `LEAVE root` leaves the
procedure; `EpollPoller::fillActiveChannels` is the override it is meant to be; the database runs in
strict mode, so a column out of range is an error; an epoll_wait never returns more events than
there is room for; epoll_ctl fails only when it adds a present descriptor or changes an absent one; an eventfd write that finds the counter full fails and leaves it full.

## Model

| member | source | states |
|---|---|---|
| ReactorProtocol.NoLostWakeup | src/network/reactor.cpp:136-145 | In every interleaving, at a poll: queued work with no signal given or owed exists exactly when the run so far has a push by the loop thread before `loop()`, no call by a foreign thread, and no return from a poll |
| ReactorProtocol.EarlyTaskStrands | src/network/reactor.cpp:142-144 | A run reaches a stranded task |
| ReactorProtocol.ExactlyOnceFifo | src/network/reactor.cpp:210-224 | Executed, rest of the batch and queue are together the enqueue order, at every step; at exit the unexecuted tasks are a suffix |
| ReactorProtocol.CallerCodeMayQueue | src/network/reactor.cpp:136-145 | The loop thread's own code may queue before and after loop(), in callbacks and in tasks, and sends itself a wakeup exactly from inside a task |
| ReactorProtocol.WakeupReadSucceeds | src/network/reactor.cpp:192-208 | handleWakeup never finds the eventfd empty |
| ReactorProtocol.QuitIsNeverMissed | src/network/reactor.cpp:98-103 | Once quit_ is set, a poll has a signal given or owed, and at most one poll returns |
| ReactorProtocol.QuitBoundsTheLoop | src/network/reactor.cpp:80-93 | Once quit_ is set the loop takes at most 7 steps plus 2 per task still run, with at most one more batch |
| ReactorProtocol.IterationIsBounded | src/network/reactor.cpp:80-93 | An iteration takes at most 6 steps plus 2 per task, whatever is queued meanwhile |
| ReactorProtocol.BatchIsFixed | src/network/reactor.cpp:214-221 | Between swaps exactly the next tasks of the fixed batch are run, in order |
| ReactorProtocol.QueuedBeforeSwapIsRun | src/network/reactor.cpp:210-224 | From any point of a run with a swap still to come, whatever is queued by then (by a running task as well) has been run when quit_ is next tested after the swap |
| ReactorProtocol.StepKeepsInv | src/network/reactor.cpp:74-224 | Every atomic step keeps the queue order, the control and the wakeup invariants |
| ReactorImpl.Reactor.PushPending | src/network/reactor.cpp:136-142 | The critical section of queueInLoop: appends the task; a wakeup is due for a foreign caller or while tasks are being called |
| ReactorImpl.Reactor.Wakeup | src/network/reactor.cpp:175-190 | The write to the eventfd is the protocol's write step |
| ReactorImpl.Reactor.QueueInLoop | src/network/reactor.cpp:136-145 | Appends the task and leaves the eventfd signalled exactly when a wakeup is due |
| ReactorImpl.Reactor.RunInLoop | src/network/reactor.cpp:128-134 | On the loop thread the task begins before anything else happens, and is not queued; from another thread it is queued and the eventfd signalled |
| ReactorImpl.Reactor.Quit | src/network/reactor.cpp:98-103 | Sets quit_ and leaves the eventfd signalled when called from another thread; the queue is untouched |
| ReactorImpl.Reactor.SetQuit | src/network/reactor.cpp:99-100 | The first half of quit, alone because others may act before the second: sets quit_, and a foreign caller then owes a wakeup |
| ReactorImpl.Reactor.HandleWakeup | src/network/reactor.cpp:192-208 | Empties a counter that was positive |
| ReactorImpl.Reactor.DoPendingTasks | src/network/reactor.cpp:210-224 | Under any interference, everything queued before the call has run, in order, when it returns |
| ReactorImpl.Reactor.Loop | src/network/reactor.cpp:74-96 | Any number of iterations under any interference is a run of the protocol; it exits only with quit_ set, and what has not run is the queue; unless it exits it goes through all of them, one quit test each, and one full iteration runs all that was queued before |
| Connection.StreamsIntact | src/network/tcp_connection.cpp:76-173 | Over every schedule: wire and output buffer are together the accepted messages in order; bytes read are those delivered and the input buffer |
| Connection.SendAllOrNothing | src/network/tcp_connection.cpp:76-118 | send returns -1 and changes nothing, exactly when not connected or nothing is buffered and the write says the peer is gone; else it accepts the whole message and returns its length |
| Connection.SendAfterRun | src/network/tcp_connection.cpp:76-118 | The same after any run, with the refusing cases spelled out |
| Connection.BufferDrains | src/network/tcp_connection.cpp:148-173 | Enough writable events put the whole output buffer on the wire in order |
| Connection.EchoEndToEnd | src/main.cpp:104-110 | With the echo handler, wire and output buffer are the echoes of the delivered chunks in order minus exactly the refused ones, and the chunks are all the bytes read |
| Connection.MessageIsEchoed | src/main.cpp:104-110 | On an open connection a readable report without error is answered by "Echo: " and what was sent |
| Connection.EchoAfterRun | src/main.cpp:104-110 | After any run of the echo server one more message is received whole and its answer joins the wire and buffer |
| Connection.HangupStopsSending | src/network/tcp_connection.cpp:59-80 | A message callback that closes its connection sends nothing more |
| Connection.LifeCycle | src/network/tcp_connection.cpp:53-70 | Between events never Disconnecting; close callbacks plus being connected count the establishments that took effect; establishing always leaves Connected |
| Connection.CloseExactlyOnce | src/network/tcp_connection.cpp:53-70 | Established once, the state only advances and the close callback has run once exactly when disconnected; establishing connects, closing an open connection disconnects |
| Connection.ReadableDelivers | src/network/channel.cpp:86-91 | Any of EPOLLIN, EPOLLPRI, EPOLLRDHUP, whatever comes with it, reads up to 65536 bytes and delivers all that waits as one piece |
| Connection.NotReadableReadsNothing | src/network/channel.cpp:86-91 | With none of the three, nothing is read, delivered or sent |
| Connection.WritableWrites | src/network/channel.cpp:93-98 | EPOLLOUT acts last: what the kernel takes moves from the front of the buffer to the wire, an error other than EAGAIN closes; without it nothing is written |
| Connection.ReportCloses | src/network/channel.cpp:70-84 | A report with nothing to read or write closes exactly for EPOLLERR, EPOLLNVAL, or EPOLLHUP without EPOLLIN |
| Connection.EndOfStreamCloses | src/network/tcp_connection.cpp:136-145 | End of file and any read error but EAGAIN close an open connection |
| Connection.ErrorsCloseBeforeRead | src/network/channel.cpp:71-91 | An error or a bare hang-up closes before the read callback: the data is delivered, the echo refused |
| Connection.HangupWithDataReadsFirst | src/network/channel.cpp:71-91 | A hang-up with readable data does not close first: the echo is accepted |
| TcpConnectionImpl.TcpConnection.CloseConnection | src/network/tcp_connection.cpp:59-70 | Closes once, whatever the close callback sends or closes in turn |
| TcpConnectionImpl.TcpConnection.SendData | src/network/tcp_connection.cpp:76-118 | The code of send does what the specification's Send does |
| TcpConnectionImpl.TcpConnection.ReadFromSocket | src/network/tcp_connection.cpp:120-146 | The code of handleRead does what the specification's HandleRead does |
| TcpConnectionImpl.TcpConnection.WriteToSocket | src/network/tcp_connection.cpp:148-173 | The code of handleWrite does what the specification's HandleWrite does |
| TcpConnectionImpl.TcpConnection.DispatchEvent | src/network/channel.cpp:45-100 | The code of handleEvent with the server's callbacks does what HandleEvent does, which the rows from ReadableDelivers on say flag by flag |
| Poller.EpollNeverRefused | src/network/poller.cpp:164-205 | Over every sequence of changes and removals the kernel refuses no call; index, registry and kernel masks stay in step with the channels and the interest map |
| Poller.PollersAgree | src/network/poller.cpp:31-119 | After the same operations epoll and select watch the same descriptors for reading and writing; the vector lists each registered one once |
| Poller.ChangeReachesKernel | include/network/channel.h:32-36 | Over every permitted history, bit by bit: what enableReading and its siblings leave in epoll's list for the descriptor (disabling one that is not in the list puts it in, watched for nothing) and for all others |
| Poller.RemovalReachesKernel | src/network/poller.cpp:184-193 | A removed descriptor is in neither poller |
| Poller.ErrorWatchDiffers | src/network/poller.cpp:52 | Select watches a registered descriptor for errors that epoll does not, exactly when its index is kDeleted |
| Poller.ErrorWatchDifferenceHappens | src/network/poller.cpp:174-178 | Permitted operations lead there: a channel that enables and then disables reading |
| Poller.BufferBounded | src/network/poller.cpp:138-154 | Over every run of operations and polls, the event buffer is 16 times a power of two and at most max(16, twice the most descriptors registered at a time) |
| Poller.BufferCatchesUp | src/network/poller.cpp:146-148 | If every poll finds m descriptors ready, after k polls there is room for min(16 * 2^k, m), whatever is registered or removed in between |
| Poller.EventuallyAllReported | src/network/poller.cpp:138-154 | If every poll finds m descriptors ready, a poll that k polls precede, 16 * 2^k being at least m, reports at least m |
| PollerImpl.Channel.SetInterest | include/network/channel.h:32-36 | Which of EPOLLIN, EPOLLPRI and EPOLLOUT each change leaves in the mask |
| PollerImpl.EpollPoller.UpdateChannel | src/network/poller.cpp:164-182 | The code of updateChannel does the specification's update |
| PollerImpl.EpollPoller.RemoveChannel | src/network/poller.cpp:184-193 | The code of removeChannel does the specification's removal, is refused nothing, and leaves kernel, registry and channels in step |
| PollerImpl.EpollPoller.Change | include/network/channel.h:32-36 | enableReading and its siblings, then update, are one step of the specification; the kernel refuses nothing and stays in step with the channels |
| PollerImpl.EpollPoller.Poll | src/network/poller.cpp:138-162 | The active list is what was reported, in order, each channel noting its events; a full buffer doubles |
| PollerImpl.SelectPoller.UpdateChannel | src/network/poller.cpp:88-101 | The code of updateChannel does the specification's update |
| PollerImpl.SelectPoller.RemoveChannel | src/network/poller.cpp:103-119 | Removal keeps the vector a duplicate-free listing of the registry |
| PollerImpl.SelectPoller.FillSets | src/network/poller.cpp:38-54 | Each listed channel is in the read set for either read bit, in the write set for its write bit, and in the exception set; nothing else is, and the bound is the maximum |
| PollerImpl.SelectPoller.Poll | src/network/poller.cpp:31-86 | Active are the listed channels in one of the three answered sets, in the vector's order; each notes exactly the sets it is in, and no other channel changes |
| PollerImpl.ActiveOfFilters | src/network/poller.cpp:64-82 | That filter has exactly the channels with something reported, in the vector's order |
| ServerProtocol.TableIsAccurate | src/network/tcp_server.cpp:194-255 | In every interleaving: connected and inserted implies in the table; an entry that is not connected is queued, mid-close, or had its erase before its insertion |
| ServerProtocol.StaleEntryExactlyWhen | src/network/tcp_server.cpp:236-251 | A disconnected connection is in the table exactly when the run has its insertion, and its erase without an insertion before |
| ServerProtocol.StaleEntryStays | src/network/tcp_server.cpp:204-209 | Such an entry stays, whatever follows |
| ServerProtocol.StaleEntryHappens | src/network/tcp_server.cpp:212-239 | Such a run exists |
| ServerProtocol.NotificationsBalance | src/network/tcp_server.cpp:204-232 | Connect minus disconnect notifications count the announced connections not yet announced closed; with none in flight, the connected ones |
| RoundRobin.RemainderTruncates | src/network/tcp_server.cpp:196 | % is the remainder of the quotient rounded towards zero, as C++ has it for a negative counter |
| RoundRobin.IndexInRange | src/network/tcp_server.cpp:196-197 | The index is a sub-reactor's exactly when the wrapped counter is not negative or a multiple of the thread count; for the first 2^31 it is k mod threads |
| RoundRobin.IndexLeavesRange | src/network/tcp_server.cpp:196-197 | Every index is in range for ever exactly when there is one thread |
| RoundRobin.LoadsBalanced | src/network/tcp_server.cpp:194-197 | For up to 2^31 connections the loads of any two sub-reactors differ by at most one |
| TcpServerImpl.TcpServer.ChooseReactor | src/network/tcp_server.cpp:196 | The k-th call gives the k-th index of the round robin |
| TcpServerImpl.TcpServer.HandleNewConnection | src/network/tcp_server.cpp:194-239 | Makes a fresh connection, queues its establishment to the next sub-reactor of the rotation and to no other, and enters it in the map |
| TcpServerImpl.TcpServer.EstablishNext | src/network/tcp_server.cpp:212-232 | The queued task: a sub-reactor establishes the connections given to it once each, in the order given |
| TcpServerImpl.TcpServer.AcceptConnections | src/network/tcp_server.cpp:170-192 | Takes every descriptor up to the first answer that is neither a connection nor an interruption |
| TcpServerImpl.TakenUpToStop | src/network/tcp_server.cpp:174-190 | Those are the descriptors, in order, among the answers before EAGAIN or an error; interruptions do not end the round |
| TcpServerImpl.TcpServer.Broadcast | src/network/tcp_server.cpp:262-273 | Each connected entry is sent the message once, others are untouched, and no connection closes |
| Ini.ParsesLayout | src/common/config.cpp:35-75 | Parsing any printed layout yields its meaning: any blanks, comments, junk lines, LF or CRLF, with or without a last newline |
| Ini.ParserIsGrammar | src/common/config.cpp:35-75 | Every text is the printing of some layout and parses to its meaning |
| Ini.LastEntryWins | src/common/config.cpp:71-73 | A key is present exactly when a line sets it, with the value of the last that does; a line sets its section's name, a dot and its key, or the key alone before any section |
| Ini.PlainFile | src/common/config.cpp:43-74 | In characters: "key = value" alone sets the key, under "[section]" it sets section.key, with any spaces and tabs around the parts and either line end |
| Ini.ItemStep | src/common/config.cpp:43-75 | One line of a layout does to the section and the map what it means |
| Ini.ParseComposes | src/common/config.cpp:37-75 | Appending a text that opens a section before its first key overrides the first text's map by its own |
| Ini.FinalNewline | src/common/config.cpp:43 | A final newline changes nothing |
| Ini.CarriageReturnsIgnored | src/common/config.cpp:45-46 | CRLF line ends give the same map |
| Strings.TrimPadded | src/common/config.cpp:45-46 | Trimming removes exactly the surrounding blanks |
| ConfigStore.Config.ParseIni | src/common/config.cpp:35-81 | The loop leaves in configs_ the parse of the text alone; earlier contents do not leak in |
| ConfigStore.MissingReadsDefault | src/common/config.cpp:169-173 | A missing key and an empty value read as the default through getString, getInt and getBool |
| ConfigStore.BoolOfExact | src/common/config.cpp:122-145 | getBool answers true for true, 1, yes, on and false for false, 0, no, off, letters of either case, and the default for anything else |
| ConfigStore.IntRoundTrip | src/common/config.cpp:147-149 | setInt then getInt returns every int under every default; no other key reads differently |
| ConfigStore.IntOfExact | src/common/config.cpp:88-103 | getInt returns the int that the key's entry in the map starts with, and the default exactly when the key is missing or its entry starts with none |
| ConfigStore.StringRoundTrip | src/common/config.cpp:83-86 | setString then getString returns the value, unless it is empty and the default is not |
| ConfigStore.Config.GetString | src/common/config.cpp:83-86 | The stored value, and the default exactly when there is none or it is empty |
| ConfigStore.Config.GetInt | src/common/config.cpp:88-103 | The default for a missing or empty value, and the int that any other value starts with, if it does |
| ConfigStore.Config.GetBool | src/common/config.cpp:122-145 | The default for a missing or empty value, yes or no for the words that say so |
| ConfigStore.Config.SetInt | src/common/config.cpp:147-149 | After setInt, getInt of the key is the value for every default |
| ConfigStore.Config.SetBool | src/common/config.cpp:155-157 | Stores "true" or "false"; getBool of the key is then the value for every default |
| Decimal.StoiExact | src/common/config.cpp:95 | stoi accepts exactly blanks, a sign, a maximal run of digits and anything after, with a value an int can hold |
| Decimal.StoiToString | src/common/config.cpp:148 | Every int, the minimum included, survives printing and reading |
| Decimal.ValueIsPositional | src/common/config.cpp:95 | A string of digits counts in positional notation, base ten |
| Inventory.Serializable | scripts/sql/init.sql:226-288 | Interleaved calls of any number of clients leave the table, and give the results, of running them one by one in the order they took effect (a lost race reads 3 for 1); a call that times out on the row lock changes nothing and is told -1 |
| Inventory.ResultsInRuns | scripts/sql/init.sql:245-286 | Over every interleaving, each caller's result read off the row when its call takes effect: 1 or 3 exactly for a stale version, 2 exactly for too little stock, -1 exactly for a column or difference out of range or a timeout, else 0 |
| Inventory.UndisturbedCall | scripts/sql/init.sql:226-288 | A call nobody interferes with ends within three steps, with the result and the table it has on its own |
| Inventory.CallsTakeEffectWhileRunning | scripts/sql/init.sql:245-286 | In every interleaving each call's place in the serial order is taken in a step between its SELECT and its last statement |
| Inventory.RealTimeOrder | scripts/sql/init.sql:245-286 | A call that ended before another began precedes it in the serial order |
| Inventory.LockHolderCanCommit | scripts/sql/init.sql:276-281 | A held row lock belongs to a session that can commit at once, which frees it and publishes a change |
| Inventory.ResultExactly | scripts/sql/init.sql:245-286 | The result of a call on its own on no row, one row or several: exactly when it is 0, 1, 2, 3 or -1 |
| Inventory.LostRaceReadsThree | scripts/sql/init.sql:269-286 | An UPDATE that finds another version is result 3 and changes nothing |
| Inventory.SuccessWrites | scripts/sql/init.sql:269-316 | What a success writes: the row, column by column, and its audit entry |
| Inventory.CleanupWrites | scripts/sql/init.sql:335-340 | What a cleanup writes, and when it fails |
| Inventory.SucceedsExactlyWhen | scripts/sql/init.sql:247-281 | When a call on its own returns 0 |
| Inventory.FailureChangesNothing | scripts/sql/init.sql:238-266 | A call that does not return 0 leaves rows and log alone |
| Inventory.NoOversell | scripts/sql/init.sql:269-274 | Granted quantities never exceed the initial stock plus what cleanups put back; available + reserved + sold is constant; the version counts the successes |
| Inventory.EachVersionWinsOnce | scripts/sql/init.sql:274 | Successful calls have different expected versions, growing in the order they took effect |
| Inventory.WinnersFollowVersions | scripts/sql/init.sql:253-274 | The k-th success was for the k-th version |
| Inventory.HistoryBalances | scripts/sql/init.sql:269-274 | Every serial history balances stock, reservations and version exactly, and its audit entries chain |
| Inventory.AuditReplaysStock | scripts/sql/init.sql:295-318 | Folding the audit entries over the initial stock gives the committed stock; consecutive entries meet, types match signs |
| Inventory.UnsignedDiffGrantsNothing | scripts/sql/init.sql:313 | Without signed subtraction no interleaving grants anything |
| DecrementInventory.InventoryTable.Update | scripts/sql/init.sql:269-276 | The UPDATE with its trigger, and what an exception leaves |
| DecrementInventory.InventoryTable.AfterUpdate | scripts/sql/init.sql:295-318 | The trigger writes the entry the specification gives, or fails |
| DecrementInventory.InventoryTable.Decrement | scripts/sql/init.sql:233-288 | Whatever other sessions commit between its statements, the call takes effect at one instant of the serial history, with the result it returns; if the row lock times out it may return -1 with no effect |

## Left out

- Sockets, addresses, `TcpServer::start` and `stop`, thread creation, and object lifetime.
- Logging, `last_active_time_` and connection timeouts, `runAt`, `runAfter`, `runEvery`.
- `getDouble`, `setDouble`; `load` and `reload` (files); `getAllConfigs` (a copy of the map).
- Delivery of what `send` buffers: nothing in the source enables write events, so only safety is claimed.
- Broadcast from another thread racing with the connection's own sub-reactor, which the source does not guard.
- The Windows wakeup socket; the services, cache and message-queue designs, which have no implementation.
- Descriptors are taken as distinct while open; the kernel dropping a closed descriptor from epoll is not modelled.
- FD_SETSIZE, which bounds the descriptors select can take.
- Products with several rows: the procedure then always fails in its SELECT, and the cleanup is modelled for one row only.
- Which reservations the cleanup event picks; it is a step that puts back any quantity the row can give.
- The client of a session that is lost: it takes no effect and, as nobody is left to tell, has no place in the history.
- TcpServerImpl.TcpServer.HandleNewConnection: runs its two halves, the queueing and the insertion, without interference; the interleavings are in ServerProtocol.
- TcpServerImpl.TcpServer.EstablishNext: leaves out the channel that the task registers (PollerImpl) and the connection callback it runs (ServerProtocol).
- ReactorImpl.Reactor.Loop: is followed for a given number of iterations, since `loop` need not end.
