/** TcpServer's own state: the round-robin counter and the connection map, with the accept loop and
    the broadcast loop over connection objects. */
module TcpServerImpl {
  import opened RoundRobin
  import Connection
  import opened TcpConnectionImpl

  type Fd = nat

  /** One return of accept4. */
  datatype AcceptResult = Accepted(fd: Fd) | Interrupted | NoMore | AcceptError

  /** The descriptors the accept loop takes: interruptions are retried, anything else ends the round. */
  function Taken(results: seq<AcceptResult>): seq<Fd> {
    if results == [] then []
    else
      match results[0]
      case Accepted(fd) => [fd] + Taken(results[1..])
      case Interrupted => Taken(results[1..])
      case NoMore => []
      case AcceptError => []
  }

  function TakenBy(result: AcceptResult): seq<Fd> {
    if result.Accepted? then [result.fd] else []
  }

  lemma TakenFrom(results: seq<AcceptResult>, i: nat)
    requires i < |results|
    ensures Taken(results[i..]) ==
            TakenBy(results[i]) +
            if results[i].NoMore? || results[i].AcceptError? then [] else Taken(results[i + 1..])
  {
    assert results[i..][0] == results[i] && results[i..][1..] == results[i + 1..];
  }

  function FdsOf(dispatched: seq<(Fd, int)>): seq<Fd> {
    seq(|dispatched|, k requires 0 <= k < |dispatched| => dispatched[k].0)
  }

  /** The descriptors among these answers, in order. */
  function FdsAmong(results: seq<AcceptResult>): (fds: seq<Fd>)
    ensures forall fd :: fd in fds <==> Accepted(fd) in results
    ensures (forall i :: 0 <= i < |results| ==> results[i].Accepted?) ==> |fds| == |results|
  {
    if results == [] then []
    else (if results[0].Accepted? then [results[0].fd] else []) + FdsAmong(results[1..])
  }

  /** An interruption does not end the round; EAGAIN and any other error do. */
  lemma {:induction false} TakenUpToStop(a: seq<AcceptResult>, stop: AcceptResult, b: seq<AcceptResult>)
    requires forall i :: 0 <= i < |a| ==> a[i].Accepted? || a[i] == Interrupted
    requires stop == NoMore || stop == AcceptError
    ensures Taken(a + [stop] + b) == FdsAmong(a)
    ensures Taken(a) == FdsAmong(a)
    decreases |a|
  {
    if a == [] {
      assert a + [stop] + b == [stop] + b;
    } else {
      assert (a + [stop] + b)[0] == a[0] && (a + [stop] + b)[1..] == a[1..] + [stop] + b;
      TakenUpToStop(a[1..], stop, b);
    }
  }

  lemma FdsSnoc(dispatched: seq<(Fd, int)>, last: (Fd, int))
    ensures FdsOf(dispatched + [last]) == FdsOf(dispatched) + [last.0]
  {
  }

  ghost function FdSet(fds: seq<Fd>): set<Fd> {
    set fd | fd in fds
  }

  lemma FdSetConcat(a: seq<Fd>, b: seq<Fd>)
    ensures FdSet(a + b) == FdSet(a) + FdSet(b)
  {
  }

  lemma NothingLeft(results: seq<AcceptResult>)
    ensures Taken(results[|results|..]) == [] && FdSet([]) == {}
  {
  }

  lemma MoveFirst<T>(done: seq<T>, waiting: seq<T>)
    requires waiting != []
    ensures waiting == [waiting[0]] + waiting[1..]
    ensures done + waiting == (done + [waiting[0]]) + waiting[1..]
  {
  }

  class TcpServer {
    const threadNum: nat
    var nextReactor: int
    var connections: map<Fd, TcpConnection>

    /** How many connections have been dispatched, and where each went. */
    ghost var dispatched: seq<(Fd, int)>

    /** The tasks queued to each sub-reactor, named by the connection each will establish. */
    var handedOver: map<int, seq<TcpConnection>>

    /** The connections given to each sub-reactor, and those whose task it has run. */
    ghost var given: map<int, seq<TcpConnection>>
    ghost var taken: map<int, seq<TcpConnection>>

    ghost predicate Valid()
      reads this
    {
      threadNum > 0 && InRotation() && Distinct() && InOrder()
    }

    /** The counter has moved once per dispatch, and each went where the rotation says. */
    ghost predicate InRotation()
      requires threadNum > 0
      reads this`nextReactor, this`dispatched
    {
      && nextReactor == CounterAt(|dispatched|)
      && (forall k :: 0 <= k < |dispatched| ==> dispatched[k].1 == IndexAt(k, threadNum))
    }

    /** A sub-reactor takes up the connections given to it once each, in the order given. */
    ghost predicate InOrder()
      reads this`handedOver, this`given, this`taken
    {
      forall r: int :: Given(r) == TakenUp(r) + Waiting(r)
    }

    function Waiting(r: int): seq<TcpConnection>
      reads this`handedOver
    {
      if r in handedOver then handedOver[r] else []
    }

    ghost function Given(r: int): seq<TcpConnection>
      reads this`given
    {
      if r in given then given[r] else []
    }

    ghost function TakenUp(r: int): seq<TcpConnection>
      reads this`taken
    {
      if r in taken then taken[r] else []
    }

    /** No connection object is entered under two descriptors. */
    ghost predicate Distinct()
      reads this`connections
    {
      forall a, b :: a in connections && b in connections && a != b ==> connections[a] != connections[b]
    }

    /** The descriptors dispatched so far. */
    ghost function DispatchedFds(): seq<Fd>
      reads this`dispatched
    {
      FdsOf(dispatched)
    }

    constructor (threadNum: nat)
      requires threadNum > 0
      ensures Valid() && connections == map[] && dispatched == [] && this.threadNum == threadNum
    {
      this.threadNum := threadNum;
      nextReactor, connections, dispatched := 0, map[], [];
      handedOver, given, taken := map[], map[], map[];
    }

    /** next_reactor_.fetch_add(1) % thread_num_ */
    method ChooseReactor(ghost fd: Fd) returns (index: int)
      requires Valid()
      modifies this`nextReactor, this`dispatched
      ensures Valid() && dispatched == old(dispatched) + [(fd, index)]
      ensures index == IndexAt(|old(dispatched)|, threadNum)
      ensures |old(dispatched)| < 0x8000_0000 ==> 0 <= index < threadNum && index == |old(dispatched)| % threadNum
    {
      hide Wrap, Distinct, InOrder;
      index := Remainder(nextReactor, threadNum);
      IndexInRange(|dispatched|, threadNum);
      nextReactor := Wrap(nextReactor + 1);
      dispatched := dispatched + [(fd, index)];
    }

    /** Makes a connection for the descriptor, queues its establishment to the next sub-reactor, and
        enters it. */
    method HandleNewConnection(fd: Fd) returns (conn: TcpConnection)
      requires Valid()
      modifies this
      ensures Valid() && fresh(conn) && conn.View() == Connection.FRESH
      ensures connections == old(connections)[fd := conn]
      ensures connections.Keys == old(connections.Keys) + {fd}
      ensures dispatched == old(dispatched) + [(fd, IndexAt(|old(dispatched)|, threadNum))]
      ensures DispatchedFds() == old(DispatchedFds()) + [fd]
      ensures forall r :: Waiting(r) ==
                if r == IndexAt(|old(dispatched)|, threadNum) then old(Waiting(r)) + [conn] else old(Waiting(r))
    {
      hide FdsOf, IndexAt, InRotation, InOrder;
      var index := ChooseReactor(fd);
      FdsSnoc(old(dispatched), (fd, index));
      conn := new TcpConnection();
      RunInLoop(index, conn);
      connections := connections[fd := conn];
    }

    /** The accepting thread is no sub-reactor's, so runInLoop queues the task there. */
    method RunInLoop(index: int, conn: TcpConnection)
      requires InOrder()
      modifies this`handedOver, this`given
      ensures InOrder()
      ensures Given(index) == old(Given(index)) + [conn]
      ensures forall r :: Waiting(r) == if r == index then old(Waiting(r)) + [conn] else old(Waiting(r))
    {
      assert Given(index) + [conn] == TakenUp(index) + (Waiting(index) + [conn]);
      handedOver := handedOver[index := Waiting(index) + [conn]];
      given := given[index := Given(index) + [conn]];
    }

    /** A sub-reactor runs the first task queued to it: its connection is established there. */
    method EstablishNext(r: int) returns (ran: bool)
      requires Valid()
      modifies this`handedOver, this`taken, if Waiting(r) == [] then {} else {Waiting(r)[0]}
      ensures Valid() && ran == (old(Waiting(r)) != [])
      ensures ran ==> old(Waiting(r))[0].View() == Connection.Establish(old(Waiting(r)[0].View()))
      ensures ran ==> old(Waiting(r)) == [old(Waiting(r))[0]] + Waiting(r)
      ensures ran ==> TakenUp(r) == old(TakenUp(r)) + [old(Waiting(r))[0]]
      ensures forall other :: other != r || !ran ==>
                Waiting(other) == old(Waiting(other)) && TakenUp(other) == old(TakenUp(other))
    {
      hide InRotation, InOrder, Distinct, Connection.Establish;
      ran := Waiting(r) != [];
      if ran {
        var conn := TakeUp(r);
        conn.EstablishConnection();
      }
    }

    method TakeUp(r: int) returns (conn: TcpConnection)
      requires InOrder() && Waiting(r) != []
      modifies this`handedOver, this`taken
      ensures InOrder()
      ensures old(Waiting(r)) == [conn] + Waiting(r) && TakenUp(r) == old(TakenUp(r)) + [conn]
      ensures forall other :: other != r ==>
                Waiting(other) == old(Waiting(other)) && TakenUp(other) == old(TakenUp(other))
    {
      conn := Waiting(r)[0];
      MoveFirst(TakenUp(r), Waiting(r));
      handedOver := handedOver[r := Waiting(r)[1..]];
      taken := taken[r := TakenUp(r) + [conn]];
    }

    /** One round of the accept loop. */
    method AcceptOne(result: AcceptResult) returns (done: bool)
      requires Valid()
      modifies this
      ensures Valid() && done == (result.NoMore? || result.AcceptError?)
      ensures DispatchedFds() == old(DispatchedFds()) + TakenBy(result)
      ensures connections.Keys == old(connections.Keys) + FdSet(TakenBy(result))
    {
      done := false;
      match result
      case Accepted(fd) => var _ := HandleNewConnection(fd);
      case Interrupted =>
      case NoMore => done := true;
      case AcceptError => done := true;
    }

    /** The accept loop. The kernel's answers run out with EAGAIN. */
    method AcceptConnections(results: seq<AcceptResult>)
      requires Valid()
      modifies this
      ensures Valid()
      ensures DispatchedFds() == old(DispatchedFds()) + Taken(results)
      ensures connections.Keys == old(connections.Keys) + FdSet(Taken(results))
    {
      hide Valid, Taken, TakenBy, DispatchedFds, FdSet;
      ghost var fds, keys := DispatchedFds(), connections.Keys;
      ghost var rest := Taken(results);
      assert results[0..] == results;
      var i := 0;
      var done := false;
      while i < |results| && !done
        invariant Valid() && i <= |results|
        invariant done ==> rest == []
        invariant !done ==> rest == Taken(results[i..])
        invariant DispatchedFds() + rest == fds + Taken(results)
        invariant connections.Keys + FdSet(rest) == keys + FdSet(Taken(results))
        decreases |results| - i
      {
        TakenFrom(results, i);
        ghost var first := TakenBy(results[i]);
        done := AcceptOne(results[i]);
        ghost var left := if done then [] else Taken(results[i + 1..]);
        FdSetConcat(first, left);
        rest := left;
        i := i + 1;
      }
      NothingLeft(results);
    }

    method RemoveConnection(fd: Fd)
      requires Valid()
      modifies this`connections
      ensures Valid() && connections == old(connections) - {fd}
    {
      connections := connections - {fd};
    }

    /** broadcast: each connected entry is offered the message once; nothing else is touched, no
        state changes, and so no close callback can run under the table's lock. */
    method Broadcast(message: Connection.Bytes, kernel: map<Fd, Connection.WriteResult>)
      requires Valid() && connections.Keys <= kernel.Keys
      modifies connections.Values
      ensures Valid() && connections == old(connections)
      ensures forall fd :: fd in connections ==>
                connections[fd].View() == Connection.Send(old(connections[fd].View()), message, kernel[fd]).0
      ensures forall fd :: fd in connections ==>
                connections[fd].state == old(connections[fd].state) &&
                connections[fd].closes == old(connections[fd].closes)
    {
      hide Connection.Send, TcpConnection.View;
      var left := connections.Keys;
      while left != {}
        invariant left <= connections.Keys
        invariant forall fd :: fd in left ==> connections[fd].View() == old(connections[fd].View())
        invariant forall fd :: fd in connections && fd !in left ==>
          connections[fd].View() == Connection.Send(old(connections[fd].View()), message, kernel[fd]).0
        invariant forall fd :: fd in connections ==>
          connections[fd].state == old(connections[fd].state) &&
          connections[fd].closes == old(connections[fd].closes)
        decreases left
      {
        var fd :| fd in left;
        Offer(connections[fd], message, kernel[fd]);
        left := left - {fd};
      }
    }

    method Offer(conn: TcpConnection, message: Connection.Bytes, w: Connection.WriteResult)
      modifies conn
      ensures conn.View() == Connection.Send(old(conn.View()), message, w).0
      ensures conn.state == old(conn.state) && conn.closes == old(conn.closes)
    {
      if conn.state == Connection.Connected {
        var _ := conn.SendData(message, w);
      }
    }
  }
}
