/** One TCP connection: its buffers, its life cycle, and the bytes that cross the socket. The
    results of read and write, and what the message handler does, are chosen freely by each event. */
module Connection {
  import opened Common

  type Bytes = string

  datatype ConnState = Connecting | Connected | Disconnecting | Disconnected

  /** EAGAIN and EWOULDBLOCK are one value on Linux. */
  datatype Errno = WouldBlock | BrokenPipe | ConnReset | OtherErrno

  /** A write either takes some prefix of what it is offered (errno then keeps its old value) or fails. */
  datatype WriteResult = Took(upTo: nat, staleErrno: Errno) | Refused(errno: Errno)

  /** A read returns bytes, none of them meaning end of file, or fails. */
  datatype ReadResult = Got(data: Bytes) | ReadFailed(errno: Errno)

  /** What a callback may do to its connection; closing runs the close callback in turn. */
  datatype Reaction = Reply(data: Bytes, w: WriteResult) | Hangup(onClose: seq<Reaction>)

  /** The message callback: none, the application's echo, or any other. */
  datatype Handler = NoHandler | Echo(w: WriteResult) | Custom(reactions: seq<Reaction>)

  /** One call of the message callback, with what its sends returned. */
  datatype Delivery = Delivery(chunk: Bytes, results: seq<int>)

  /** The first three are the connection's fields; the rest is history: bytes the kernel took,
      messages whose send did not return -1, bytes read, messages delivered, close callbacks. */
  datatype Conn = Conn(
    state: ConnState,
    input: Bytes,
    output: Bytes,

    wire: Bytes,
    accepted: seq<Bytes>,
    received: Bytes,
    deliveries: seq<Delivery>,
    closes: nat
  )

  const FRESH: Conn := Conn(Connecting, "", "", "", [], "", [], 0)

  const BUFFER_SIZE: nat := 65536

  // ---------------------------------------------------------------- the operations

  function Establish(c: Conn): Conn {
    c.(state := Connected)
  }

  /** The close callback runs in state Disconnecting, where sends fail and closes do nothing. */
  function Close(c: Conn): Conn {
    if c.state.Connected? then c.(state := Disconnected, closes := c.closes + 1) else c
  }

  function Send(c: Conn, data: Bytes, w: WriteResult): (Conn, int) {
    if !c.state.Connected? then (c, -1)
    else if c.output != "" then
      (c.(output := c.output + data, accepted := c.accepted + [data]), |data|)
    else
      match w
      case Took(upTo, _) =>
        var n := Min(upTo, |data|);
        (c.(wire := c.wire + data[..n], output := data[n..], accepted := c.accepted + [data]), |data|)
      case Refused(errno) =>
        if errno.BrokenPipe? || errno.ConnReset? then (c, -1)
        else (c.(output := data, accepted := c.accepted + [data]), |data|)
  }

  function React(c: Conn, reactions: seq<Reaction>): (Conn, seq<int>)
    decreases |reactions|
  {
    if reactions == [] then (c, [])
    else
      var (before, results) := React(c, reactions[..|reactions| - 1]);
      match reactions[|reactions| - 1]
      case Reply(data, w) =>
        var (after, result) := Send(before, data, w);
        (after, results + [result])
      case Hangup(_) => (Close(before), results)
  }

  const ECHO_PREFIX: Bytes := "Echo: "

  function Reactions(h: Handler, chunk: Bytes): seq<Reaction> {
    match h
    case NoHandler => []
    case Echo(w) => [Reply(ECHO_PREFIX + chunk, w)]
    case Custom(reactions) => reactions
  }

  function Deliver(c: Conn, h: Handler): Conn {
    if h.NoHandler? then c
    else
      var (after, results) := React(c, Reactions(h, c.input));
      after.(input := "", deliveries := after.deliveries + [Delivery(c.input, results)])
  }

  function HandleRead(c: Conn, r: ReadResult, h: Handler): Conn {
    match r
    case Got(offered) =>
      var data := offered[..Min(|offered|, BUFFER_SIZE)];
      if data == "" then Close(c)
      else Deliver(c.(input := c.input + data, received := c.received + data), h)
    case ReadFailed(errno) => if errno.WouldBlock? then c else Close(c)
  }

  function HandleWrite(c: Conn, w: WriteResult): Conn {
    if c.output == "" then c
    else
      match w
      case Took(upTo, staleErrno) =>
        var n := Min(upTo, |c.output|);
        if n > 0 then c.(wire := c.wire + c.output[..n], output := c.output[n..])
        else if staleErrno.WouldBlock? then c
        else Close(c)
      case Refused(errno) => if errno.WouldBlock? then c else Close(c)
  }

  /** Bits of revents_. */
  datatype Flag = In | Pri | Out | Err | Hup | Nval | RdHup

  /** The hang-up branch, then the error branch; both callbacks close the connection. */
  function AfterErrors(c: Conn, revents: set<Flag>): Conn {
    var c1 := if Hup in revents && In !in revents then Close(c) else c;
    if Err in revents || Nval in revents then Close(c1) else c1
  }

  predicate Readable(revents: set<Flag>) {
    In in revents || Pri in revents || RdHup in revents
  }

  /** Channel::handleEvent, with the callbacks TcpServer installs. */
  function HandleEvent(c: Conn, revents: set<Flag>, r: ReadResult, h: Handler, w: WriteResult): Conn {
    var c2 := AfterErrors(c, revents);
    var c3 := if Readable(revents) then HandleRead(c2, r, h) else c2;
    if Out in revents then HandleWrite(c3, w) else c3
  }

  datatype Event =
    | Established
    | AppSend(data: Bytes, w: WriteResult)
    | AppClose
    | Dispatched(revents: set<Flag>, r: ReadResult, h: Handler, w: WriteResult)

  function Step(c: Conn, e: Event): Conn {
    match e
    case Established => Establish(c)
    case AppSend(data, w) => Send(c, data, w).0
    case AppClose => Close(c)
    case Dispatched(revents, r, h, w) => HandleEvent(c, revents, r, h, w)
  }

  function Run(c: Conn, events: seq<Event>): Conn {
    if events == [] then c
    else Step(Run(c, events[..|events| - 1]), events[|events| - 1])
  }

  // ---------------------------------------------------------------- streams

  function Flatten(parts: seq<Bytes>): Bytes {
    if parts == [] then "" else Flatten(parts[..|parts| - 1]) + parts[|parts| - 1]
  }

  lemma FlattenSnoc(parts: seq<Bytes>, last: Bytes)
    ensures Flatten(parts + [last]) == Flatten(parts) + last
  {
    assert (parts + [last])[..|parts + [last]| - 1] == parts;
  }

  function Chunks(deliveries: seq<Delivery>): seq<Bytes> {
    seq(|deliveries|, i requires 0 <= i < |deliveries| => deliveries[i].chunk)
  }

  predicate OutputInv(c: Conn) {
    c.wire + c.output == Flatten(c.accepted)
  }

  predicate InputInv(c: Conn) {
    c.received == Flatten(Chunks(c.deliveries)) + c.input
  }

  /** Not connected, or nothing buffered and the write says the peer is gone. */
  predicate Refuses(c: Conn, w: WriteResult) {
    || !c.state.Connected?
    || (c.output == "" && w.Refused? && (w.errno.BrokenPipe? || w.errno.ConnReset?))
  }

  /** send returns -1 and changes nothing, or accepts the whole message and returns its length; the
      bytes on the wire only ever grow. */
  lemma SendAllOrNothing(c: Conn, data: Bytes, w: WriteResult)
    requires OutputInv(c)
    ensures var (c', result) := Send(c, data, w);
            && (result == -1 || result == |data|)
            && (result == -1 ==> c' == c)
            && (result != -1 ==> c'.accepted == c.accepted + [data] && c'.wire + c'.output == c.wire + c.output + data)
            && c'.wire == c.wire + (if c.state.Connected? && c.output == "" && w.Took?
                                    then data[..Min(w.upTo, |data|)] else "")
            && OutputInv(c')
            && (result == -1 <==>
                  || !c.state.Connected?
                  || (c.output == "" && w.Refused? && (w.errno == BrokenPipe || w.errno == ConnReset)))
            && c'.input == c.input && c'.received == c.received && c'.deliveries == c.deliveries
            && c'.state == c.state && c'.closes == c.closes
  {
    FlattenSnoc(c.accepted, data);
    if w.Took? {
      var n := Min(w.upTo, |data|);
      assert data == data[..n] + data[n..];
    }
  }

  lemma {:induction false} ReactKeepsStreams(c: Conn, reactions: seq<Reaction>)
    requires OutputInv(c)
    ensures var (c', results) := React(c, reactions);
            && OutputInv(c') && c.wire <= c'.wire && c.accepted <= c'.accepted
            && c'.input == c.input && c'.received == c.received && c'.deliveries == c.deliveries
    decreases |reactions|
  {
    if reactions != [] {
      var before := reactions[..|reactions| - 1];
      ReactKeepsStreams(c, before);
      match reactions[|reactions| - 1]
      case Reply(data, w) => SendAllOrNothing(React(c, before).0, data, w);
      case Hangup(_) =>
    }
  }

  lemma DeliverKeepsStreams(c: Conn, h: Handler)
    requires OutputInv(c) && InputInv(c)
    ensures OutputInv(Deliver(c, h)) && InputInv(Deliver(c, h)) && c.wire <= Deliver(c, h).wire
  {
    if !h.NoHandler? {
      ReactKeepsStreams(c, Reactions(h, c.input));
      var c' := Deliver(c, h);
      var d := c'.deliveries[|c'.deliveries| - 1];
      assert Chunks(c'.deliveries) == Chunks(c.deliveries) + [c.input];
      FlattenSnoc(Chunks(c.deliveries), c.input);
    }
  }

  lemma ReadKeepsStreams(c: Conn, r: ReadResult, h: Handler)
    requires OutputInv(c) && InputInv(c)
    ensures OutputInv(HandleRead(c, r, h)) && InputInv(HandleRead(c, r, h)) && c.wire <= HandleRead(c, r, h).wire
  {
    if r.Got? {
      var data := r.data[..Min(|r.data|, BUFFER_SIZE)];
      if data != "" {
        DeliverKeepsStreams(c.(input := c.input + data, received := c.received + data), h);
      }
    }
  }

  lemma WriteKeepsStreams(c: Conn, w: WriteResult)
    requires OutputInv(c) && InputInv(c)
    ensures OutputInv(HandleWrite(c, w)) && InputInv(HandleWrite(c, w)) && c.wire <= HandleWrite(c, w).wire
  {
    if w.Took? {
      var n := Min(w.upTo, |c.output|);
      assert c.output == c.output[..n] + c.output[n..];
    }
  }

  lemma StepKeepsStreams(c: Conn, e: Event)
    requires OutputInv(c) && InputInv(c)
    ensures OutputInv(Step(c, e)) && InputInv(Step(c, e)) && c.wire <= Step(c, e).wire
  {
    match e
    case AppSend(data, w) =>
      hide Send;
      SendAllOrNothing(c, data, w);
    case Dispatched(revents, r, h, w) =>
      hide HandleRead, HandleWrite, Flatten, Chunks;
      var c2 := AfterErrors(c, revents);
      ReadKeepsStreams(c2, r, h);
      var c3 := if Readable(revents) then HandleRead(c2, r, h) else c2;
      WriteKeepsStreams(c3, w);
    case _ =>
  }

  /** Stream integrity, over every schedule of sends, reads and writes with arbitrary partial
      transfers and errors: what is on the wire and what waits in the output buffer are together the
      accepted messages in order, and what was read is what was delivered and what waits. */
  lemma {:induction false} StreamsIntact(events: seq<Event>)
    ensures var c := Run(FRESH, events);
            && c.wire + c.output == Flatten(c.accepted)
            && c.received == Flatten(Chunks(c.deliveries)) + c.input
    decreases |events|
  {
    if events != [] {
      var before := events[..|events| - 1];
      StreamsIntact(before);
      StepKeepsStreams(Run(FRESH, before), events[|events| - 1]);
    }
  }

  function WriteAll(c: Conn, ws: seq<WriteResult>): Conn {
    if ws == [] then c else HandleWrite(WriteAll(c, ws[..|ws| - 1]), ws[|ws| - 1])
  }

  /** Draining: if the kernel takes at least a byte each time, as many writable events as there are
      bytes buffered put all of them on the wire, in order, and empty the buffer. */
  lemma {:induction false} BufferDrains(c: Conn, ws: seq<WriteResult>)
    requires forall i :: 0 <= i < |ws| ==> ws[i].Took? && ws[i].upTo > 0
    ensures var c' := WriteAll(c, ws);
            && c'.wire + c'.output == c.wire + c.output
            && c'.accepted == c.accepted && c'.state == c.state
            && |c'.output| + |ws| <= (if |c.output| > |ws| then |c.output| else |ws|)
            && (|ws| >= |c.output| ==> c'.output == "" && c'.wire == c.wire + c.output)
    decreases |ws|
  {
    if ws != [] {
      var before := ws[..|ws| - 1];
      BufferDrains(c, before);
      var m := WriteAll(c, before);
      var n := Min(ws[|ws| - 1].upTo, |m.output|);
      assert m.output == m.output[..n] + m.output[n..];
    }
  }

  // ---------------------------------------------------------------- what each report does

  /** Any of the three readable flags, whatever comes with it, reads: the bytes that fit the 65536-byte
      buffer are appended, and all that waits is delivered to the message callback in one piece. */
  lemma ReadableDelivers(c: Conn, revents: set<Flag>, data: Bytes, h: Handler, w: WriteResult)
    requires In in revents || Pri in revents || RdHup in revents
    requires data != ""
    ensures var c' := HandleEvent(c, revents, Got(data), h, w);
            var got := if |data| <= 65536 then data else data[..65536];
            && c'.received == c.received + got
            && (h.NoHandler? ==> c'.input == c.input + got && c'.deliveries == c.deliveries)
            && (!h.NoHandler? ==>
                  && c'.input == ""
                  && |c'.deliveries| == |c.deliveries| + 1
                  && c'.deliveries[..|c.deliveries|] == c.deliveries
                  && c'.deliveries[|c.deliveries|].chunk == c.input + got)
  {
    var c2 := AfterErrors(c, revents);
    var got := data[..Min(|data|, BUFFER_SIZE)];
    var filled := c2.(input := c2.input + got, received := c2.received + got);
    assert |data| <= 65536 ==> got == data;
    ReactLeavesInput(filled, Reactions(h, filled.input));
    var c3 := HandleRead(c2, Got(data), h);
    hide HandleRead, React;
    WriteKeepsMessages(c3, w);
  }

  /** With none of the three nothing is read or delivered, and nothing is sent. */
  lemma NotReadableReadsNothing(c: Conn, revents: set<Flag>, r: ReadResult, h: Handler, w: WriteResult)
    requires In !in revents && Pri !in revents && RdHup !in revents
    ensures var c' := HandleEvent(c, revents, r, h, w);
            && c'.received == c.received && c'.input == c.input
            && c'.deliveries == c.deliveries && c'.accepted == c.accepted
  {
  }

  /** A writable report acts last, on what the rest of the report left: if anything is buffered, what
      the kernel takes moves from its front to the wire; an error other than EAGAIN closes. Without
      the flag nothing is written. */
  lemma WritableWrites(c: Conn, revents: set<Flag>, r: ReadResult, h: Handler, w: WriteResult)
    requires Out !in revents
    ensures var c3 := HandleEvent(c, revents, r, h, w);
            var c' := HandleEvent(c, revents + {Out}, r, h, w);
            && (forall w' :: HandleEvent(c, revents, r, h, w') == c3)
            && (c3.output == "" ==> c' == c3)
            && (c3.output != "" && w.Took? && w.upTo > 0 ==>
                  && c'.wire + c'.output == c3.wire + c3.output
                  && |c'.wire| == |c3.wire| + Min(w.upTo, |c3.output|)
                  && c'.state == c3.state)
            && (c3.output != "" && ((w.Took? && w.upTo == 0) || w.Refused?) ==>
                  var errno := if w.Took? then w.staleErrno else w.errno;
                  if errno != WouldBlock && c3.state == Connected
                  then c' == c3.(state := Disconnected, closes := c3.closes + 1)
                  else c' == c3)
  {
    hide HandleRead, HandleWrite, Close;
    assert AfterErrors(c, revents + {Out}) == AfterErrors(c, revents);
    assert Readable(revents + {Out}) == Readable(revents);
    WriteExactly(HandleEvent(c, revents, r, h, w), w);
  }

  lemma WriteExactly(c: Conn, w: WriteResult)
    ensures var c' := HandleWrite(c, w);
            && (c.output == "" ==> c' == c)
            && (c.output != "" && w.Took? && w.upTo > 0 ==>
                  && c'.wire + c'.output == c.wire + c.output
                  && |c'.wire| == |c.wire| + Min(w.upTo, |c.output|)
                  && c'.state == c.state)
            && (c.output != "" && ((w.Took? && w.upTo == 0) || w.Refused?) ==>
                  var errno := if w.Took? then w.staleErrno else w.errno;
                  if errno != WouldBlock && c.state == Connected
                  then c' == c.(state := Disconnected, closes := c.closes + 1)
                  else c' == c)
  {
    if w.Took? {
      var n := Min(w.upTo, |c.output|);
      assert c.output == c.output[..n] + c.output[n..];
    }
  }

  /** A report that finds nothing to read or write closes a connected connection exactly for an error,
      an invalid descriptor, or a hang-up that does not come with readable data. */
  lemma ReportCloses(c: Conn, revents: set<Flag>, h: Handler, w: WriteResult)
    requires c.state == Connected && Out !in revents
    ensures var c' := HandleEvent(c, revents, ReadFailed(WouldBlock), h, w);
            if Err in revents || Nval in revents || (Hup in revents && In !in revents)
            then c' == c.(state := Disconnected, closes := c.closes + 1)
            else c' == c
  {
  }

  /** The end of the stream, and any read error but EAGAIN, close a connected connection. */
  lemma EndOfStreamCloses(c: Conn, revents: set<Flag>, r: ReadResult, h: Handler, w: WriteResult)
    requires In in revents || Pri in revents || RdHup in revents
    requires c.state == Connected && Out !in revents
    requires r == Got("") || (r.ReadFailed? && r.errno != WouldBlock)
    ensures HandleEvent(c, revents, r, h, w) == c.(state := Disconnected, closes := c.closes + 1)
  {
  }

  lemma {:induction false} ReactLeavesInput(c: Conn, reactions: seq<Reaction>)
    ensures var c' := React(c, reactions).0;
            c'.input == c.input && c'.received == c.received && c'.deliveries == c.deliveries
    decreases |reactions|
  {
    if reactions != [] {
      ReactLeavesInput(c, reactions[..|reactions| - 1]);
    }
  }

  /** The path of every ordinary message: the connection is open, the report is not an error, the write
      does not say that the peer is gone. The server answers "Echo: " and what it was sent. */
  lemma MessageIsEchoed(c: Conn, revents: set<Flag>, data: Bytes, w1: WriteResult, w2: WriteResult)
    requires c.state.Connected? && 0 < |data| <= 65536
    requires In in revents || Pri in revents || RdHup in revents
    requires Err !in revents && Nval !in revents && (Hup in revents ==> In in revents)
    requires !(c.output == "" && w1.Refused? && (w1.errno == BrokenPipe || w1.errno == ConnReset))
    ensures var c' := HandleEvent(c, revents, Got(data), Echo(w1), w2);
            c'.accepted == c.accepted + ["Echo: " + c.input + data]
  {
    assert data[..|data|] == data;
    var filled := c.(input := c.input + data, received := c.received + data);
    OneReply(filled, ECHO_PREFIX + filled.input, w1);
    assert ECHO_PREFIX + filled.input == "Echo: " + c.input + data;
    WriteKeepsMessages(HandleRead(c, Got(data), Echo(w1)), w2);
  }

  /** A callback that closes its connection: from there on nothing it sends is accepted. */
  lemma {:induction false} HangupStopsSending(c: Conn, reactions: seq<Reaction>, i: nat)
    requires i < |reactions| && reactions[i].Hangup?
    ensures var c' := React(c, reactions).0;
            !c'.state.Connected? && c'.accepted == React(c, reactions[..i]).0.accepted
    decreases |reactions|
  {
    var n := |reactions| - 1;
    if i < n {
      HangupStopsSending(c, reactions[..n], i);
      assert reactions[..n][..i] == reactions[..i];
    }
  }

  /** send over a run: it is refused or accepts the whole message, whatever happened before. */
  lemma SendAfterRun(events: seq<Event>, data: Bytes, w: WriteResult)
    ensures var c, c' := Run(FRESH, events), Run(FRESH, events + [AppSend(data, w)]);
            if c.state != Connected || (c.output == "" && (w == Refused(BrokenPipe) || w == Refused(ConnReset)))
            then c' == c
            else c'.accepted == c.accepted + [data] && c'.wire + c'.output == c.wire + c.output + data
                 && c'.state == Connected
  {
    hide Send;
    assert (events + [AppSend(data, w)])[..|events|] == events;
    StreamsIntact(events);
    SendAllOrNothing(Run(FRESH, events), data, w);
  }

  // ---------------------------------------------------------------- dispatch order

  /** An error, or a hang-up with nothing to read, closes the connection before its read callback
      runs: what is still read is delivered, but the echo is refused and nothing is accepted. */
  lemma ErrorsCloseBeforeRead(c: Conn, revents: set<Flag>, r: ReadResult, w1: WriteResult, w2: WriteResult)
    requires c.state.Connected?
    requires Err in revents || Nval in revents || (Hup in revents && In !in revents)
    ensures var c' := HandleEvent(c, revents, r, Echo(w1), w2);
            && c'.state.Disconnected? && c'.closes == c.closes + 1 && c'.accepted == c.accepted
            && (Readable(revents) && r.Got? && r.data != "" ==>
                  |c'.deliveries| == |c.deliveries| + 1 && c'.deliveries[|c.deliveries|].results == [-1])
  {
    var c2 := AfterErrors(c, revents);
    if r.Got? {
      var data := r.data[..Min(|r.data|, BUFFER_SIZE)];
      RefusedEcho(c2.(input := c2.input + data, received := c2.received + data), w1);
    }
  }

  lemma RefusedEcho(c: Conn, w: WriteResult)
    requires !c.state.Connected?
    ensures Deliver(c, Echo(w)) == c.(input := "", deliveries := c.deliveries + [Delivery(c.input, [-1])])
  {
    OneReply(c, ECHO_PREFIX + c.input, w);
  }

  lemma OneReply(c: Conn, data: Bytes, w: WriteResult)
    ensures var (after, result) := Send(c, data, w); React(c, [Reply(data, w)]) == (after, [result])
  {
    var reply := Reply(data, w);
    assert [reply][..0] == [];
    assert React(c, []) == (c, []);
    assert [] + [Send(c, data, w).1] == [Send(c, data, w).1];
  }

  /** A hang-up that comes with readable data does not close first: the data is delivered on the
      connection as it was, and the echo is subject only to the write. */
  lemma HangupWithDataReadsFirst(c: Conn, revents: set<Flag>, data: Bytes, w1: WriteResult, w2: WriteResult)
    requires c.state.Connected? && Hup in revents && In in revents && Err !in revents && Nval !in revents
    requires 0 < |data| <= BUFFER_SIZE && !Refuses(c, w1)
    ensures var c' := HandleEvent(c, revents, Got(data), Echo(w1), w2);
            c'.accepted == c.accepted + ["Echo: " + c.input + data]
  {
    MessageIsEchoed(c, revents, data, w1, w2);
  }

  // ---------------------------------------------------------------- echo, end to end

  /** The server runs the echo application and nothing else sends. */
  predicate EchoOnly(events: seq<Event>) {
    forall i :: 0 <= i < |events| ==>
      !events[i].AppSend? && (events[i].Dispatched? ==> events[i].h.Echo?)
  }

  /** The echoes that were not refused, in delivery order. */
  function Echoes(deliveries: seq<Delivery>): seq<Bytes> {
    if deliveries == [] then []
    else
      var last := deliveries[|deliveries| - 1];
      Echoes(deliveries[..|deliveries| - 1])
      + if last.results == [-1] then [] else [ECHO_PREFIX + last.chunk]
  }

  lemma EchoesSnoc(deliveries: seq<Delivery>, last: Delivery)
    ensures Echoes(deliveries + [last]) ==
            Echoes(deliveries) + if last.results == [-1] then [] else [ECHO_PREFIX + last.chunk]
  {
    assert (deliveries + [last])[..|deliveries + [last]| - 1] == deliveries;
  }

  lemma EchoDelivery(c: Conn, w: WriteResult)
    requires c.accepted == Echoes(c.deliveries)
    ensures Deliver(c, Echo(w)).accepted == Echoes(Deliver(c, Echo(w)).deliveries)
    ensures Deliver(c, Echo(w)).input == ""
  {
    OneReply(c, ECHO_PREFIX + c.input, w);
    var (after, result) := Send(c, ECHO_PREFIX + c.input, w);
    EchoesSnoc(c.deliveries, Delivery(c.input, [result]));
  }

  lemma StepKeepsEcho(c: Conn, e: Event)
    requires c.accepted == Echoes(c.deliveries) && c.input == ""
    requires !e.AppSend? && (e.Dispatched? ==> e.h.Echo?)
    ensures Step(c, e).accepted == Echoes(Step(c, e).deliveries) && Step(c, e).input == ""
  {
    if e.Dispatched? {
      hide HandleRead, HandleWrite, AfterErrors, Echoes;
      var c2 := AfterErrors(c, e.revents);
      ErrorsKeepMessages(c, e.revents);
      ReadKeepsEcho(c2, e.r, e.h.w);
      WriteKeepsMessages(if Readable(e.revents) then HandleRead(c2, e.r, e.h) else c2, e.w);
    }
  }

  lemma ErrorsKeepMessages(c: Conn, revents: set<Flag>)
    ensures var c' := AfterErrors(c, revents);
            c'.accepted == c.accepted && c'.deliveries == c.deliveries && c'.input == c.input
  {
  }

  lemma WriteKeepsMessages(c: Conn, w: WriteResult)
    ensures var c' := HandleWrite(c, w);
            c'.accepted == c.accepted && c'.deliveries == c.deliveries && c'.input == c.input
  {
  }

  lemma ReadKeepsEcho(c: Conn, r: ReadResult, w: WriteResult)
    requires c.accepted == Echoes(c.deliveries) && c.input == ""
    ensures var c' := HandleRead(c, r, Echo(w)); c'.accepted == Echoes(c'.deliveries) && c'.input == ""
  {
    hide Deliver;
    if r.Got? {
      var data := r.data[..Min(|r.data|, BUFFER_SIZE)];
      EchoDelivery(c.(input := c.input + data, received := c.received + data), w);
    }
  }

  /** End to end: under any chunking of reads, partial writes and errors, the bytes sent and waiting
      are the echoes of the delivered chunks in order, minus exactly the refused ones, and the
      delivered chunks are the bytes received, with nothing held back. */
  lemma {:induction false} EchoEndToEnd(events: seq<Event>)
    requires EchoOnly(events)
    ensures var c := Run(FRESH, events);
            && c.wire + c.output == Flatten(Echoes(c.deliveries))
            && c.received == Flatten(Chunks(c.deliveries))
            && c.accepted == Echoes(c.deliveries)
            && c.input == ""
    decreases |events|
  {
    StreamsIntact(events);
    if events != [] {
      var before := events[..|events| - 1];
      EchoEndToEnd(before);
      StepKeepsEcho(Run(FRESH, before), events[|events| - 1]);
    }
  }

  /** One more message after any run of the echo server: its bytes are received, and the answer joins
      what is on the wire or waiting to go there. */
  lemma EchoAfterRun(events: seq<Event>, revents: set<Flag>, data: Bytes, w1: WriteResult, w2: WriteResult)
    requires EchoOnly(events) && Run(FRESH, events).state == Connected && 0 < |data| <= 65536
    requires In in revents || Pri in revents || RdHup in revents
    requires Err !in revents && Nval !in revents && (Hup in revents ==> In in revents)
    requires var output := Run(FRESH, events).output;
             !(output == "" && (w1 == Refused(BrokenPipe) || w1 == Refused(ConnReset)))
    ensures var c, c' := Run(FRESH, events), Run(FRESH, events + [Dispatched(revents, Got(data), Echo(w1), w2)]);
            && c'.received == c.received + data
            && c'.accepted == c.accepted + ["Echo: " + data]
            && c'.wire + c'.output == c.wire + c.output + ("Echo: " + data)
  {
    hide HandleEvent;
    var e := Dispatched(revents, Got(data), Echo(w1), w2);
    assert (events + [e])[..|events|] == events;
    var c := Run(FRESH, events);
    EchoEndToEnd(events);
    ReadableDelivers(c, revents, data, Echo(w1), w2);
    MessageIsEchoed(c, revents, data, w1, w2);
    assert "Echo: " + c.input + data == "Echo: " + data;
    StreamsIntact(events);
    StreamsIntact(events + [e]);
    FlattenSnoc(c.accepted, "Echo: " + data);
  }

  // ---------------------------------------------------------------- life cycle

  function Rank(s: ConnState): nat {
    match s
    case Connecting => 0
    case Connected => 1
    case Disconnecting => 2
    case Disconnected => 3
  }

  function Establishments(events: seq<Event>): nat {
    if events == [] then 0
    else Establishments(events[..|events| - 1]) + if events[|events| - 1].Established? then 1 else 0
  }

  function Alive(c: Conn): nat {
    if c.state.Connected? then 1 else 0
  }

  /** What every operation but establishConnection does to the life cycle. */
  predicate OnlyCloses(c: Conn, c': Conn) {
    && (c'.state == c.state || (c.state.Connected? && c'.state.Disconnected?))
    && c'.closes + Alive(c') == c.closes + Alive(c)
    && (!c.state.Connected? ==> c'.accepted == c.accepted)
  }

  lemma {:induction false} ReactOnlyCloses(c: Conn, reactions: seq<Reaction>)
    ensures OnlyCloses(c, React(c, reactions).0)
    decreases |reactions|
  {
    if reactions != [] {
      ReactOnlyCloses(c, reactions[..|reactions| - 1]);
    }
  }

  lemma DispatchOnlyCloses(c: Conn, revents: set<Flag>, r: ReadResult, h: Handler, w: WriteResult)
    ensures OnlyCloses(c, HandleEvent(c, revents, r, h, w))
  {
    var c2 := AfterErrors(c, revents);
    if r.Got? {
      var data := r.data[..Min(|r.data|, BUFFER_SIZE)];
      var filled := c2.(input := c2.input + data, received := c2.received + data);
      ReactOnlyCloses(filled, Reactions(h, filled.input));
    }
  }

  /** Between events a connection is never caught closing; its close callback has run once per
      establishment that is over; and nothing is accepted unless it is connected. */
  lemma {:induction false} LifeCycle(events: seq<Event>)
    ensures var c := Run(FRESH, events);
            && !c.state.Disconnecting?
            && c.closes + Alive(c) <= Establishments(events)
            && (c.state.Connecting? <==> Establishments(events) == 0)
            && (Establishments(events) == 1 ==> c.closes + Alive(c) == 1)
            && (events != [] && events[|events| - 1].Established? ==> c.state.Connected?)
    decreases |events|
  {
    if events != [] {
      var before, e := events[..|events| - 1], events[|events| - 1];
      LifeCycle(before);
      if e.Dispatched? {
        DispatchOnlyCloses(Run(FRESH, before), e.revents, e.r, e.h, e.w);
      }
    }
  }

  /** The server establishes each connection once. Then the state only advances, and the close
      callback has run exactly once when, and only when, the connection is disconnected, whatever
      repeated errors, hang-ups, end-of-files and closes follow. */
  lemma CloseExactlyOnce(events: seq<Event>, e: Event)
    requires Establishments(events + [e]) <= 1
    ensures var c, c' := Run(FRESH, events), Run(FRESH, events + [e]);
            && Rank(c.state) <= Rank(c'.state)
            && c'.closes <= 1
            && (c'.closes == 1 <==> c'.state.Disconnected?)
            && (!c.state.Connected? ==> c'.accepted == c.accepted)
            && (e.Established? ==> c'.state.Connected?)
            && (e.AppClose? && c.state.Connected? ==> c'.state.Disconnected?)
  {
    assert (events + [e])[..|events + [e]| - 1] == events;
    LifeCycle(events);
    LifeCycle(events + [e]);
    var c := Run(FRESH, events);
    assert Run(FRESH, events + [e]) == Step(c, e);
    if e.Dispatched? {
      DispatchOnlyCloses(c, e.revents, e.r, e.h, e.w);
    }
  }
}
