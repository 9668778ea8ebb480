/** TcpConnection as an object whose methods change its fields in place, each shown to do what the
    operation of the same name does in Connection. Callbacks re-enter the object. */
module TcpConnectionImpl {
  import opened Common
  import opened Connection

  class TcpConnection {
    var state: ConnState
    var inputBuffer: Bytes
    var outputBuffer: Bytes

    ghost var wire: Bytes
    ghost var accepted: seq<Bytes>
    ghost var received: Bytes
    ghost var deliveries: seq<Delivery>
    ghost var closes: nat

    ghost function View(): Conn
      reads this
    {
      Conn(state, inputBuffer, outputBuffer, wire, accepted, received, deliveries, closes)
    }

    constructor ()
      ensures View() == FRESH
    {
      state, inputBuffer, outputBuffer := Connecting, "", "";
      wire, accepted, received, deliveries, closes := "", [], "", [], 0;
    }

    method EstablishConnection()
      modifies this
      ensures View() == Establish(old(View()))
    {
      state := Connected;
    }

    /** The close callback may send on the connection or close it again; neither has any effect. */
    method CloseConnection(onClose: seq<Reaction>)
      modifies this
      ensures View() == Close(old(View()))
      decreases onClose
    {
      if state == Connected {
        state := Disconnecting;
        closes := closes + 1;
        for i := 0 to |onClose|
          invariant View() == old(View()).(state := Disconnecting, closes := old(closes) + 1)
        {
          match onClose[i]
          case Reply(data, w) => var _ := SendData(data, w);
          case Hangup(again) => CloseConnection(again);
        }
        state := Disconnected;
      }
    }

    method SendData(data: Bytes, w: WriteResult) returns (result: int)
      modifies this
      ensures (View(), result) == Send(old(View()), data, w)
    {
      if state != Connected {
        return -1;
      }
      var nwrote := 0;
      var remaining := |data|;
      var faultError := false;
      if outputBuffer == "" {
        match w {
          case Took(upTo, _) =>
            nwrote := Min(upTo, |data|);
            wire := wire + data[..nwrote];
            remaining := |data| - nwrote;
            if remaining == 0 {
              accepted := accepted + [data];
              assert data[|data|..] == "" && outputBuffer == "";
              return nwrote;
            }
          case Refused(errno) =>
            faultError := errno == BrokenPipe || errno == ConnReset;
        }
      }
      if !faultError {
        if remaining > 0 {
          outputBuffer := outputBuffer + data[nwrote..nwrote + remaining];
        }
        accepted := accepted + [data];
        assert data[0..|data|] == data;
        assert data[nwrote..|data|] == data[nwrote..];
        assert "" + data[nwrote..] == data[nwrote..];
        assert old(outputBuffer) + "" == old(outputBuffer);
      }
      result := if faultError then -1 else |data|;
    }

    /** The message callback's work on the connection. */
    method RunReactions(reactions: seq<Reaction>) returns (ghost results: seq<int>)
      modifies this
      ensures (View(), results) == React(old(View()), reactions)
    {
      results := [];
      for i := 0 to |reactions|
        invariant (View(), results) == React(old(View()), reactions[..i])
      {
        assert reactions[..i + 1][..i] == reactions[..i];
        match reactions[i]
        case Reply(data, w) =>
          var result := SendData(data, w);
          results := results + [result];
        case Hangup(onClose) => CloseConnection(onClose);
      }
      assert reactions[..|reactions|] == reactions;
    }

    method ReadFromSocket(r: ReadResult, h: Handler)
      modifies this
      ensures View() == HandleRead(old(View()), r, h)
    {
      match r {
        case Got(offered) =>
          var data := offered[..Min(|offered|, BUFFER_SIZE)];
          if data != "" {
            inputBuffer := inputBuffer + data;
            received := received + data;
            if h != NoHandler {
              ghost var filled := View();
              ghost var results := RunReactions(Reactions(h, inputBuffer));
              ReactLeavesInput(filled, Reactions(h, filled.input));
              deliveries := deliveries + [Delivery(inputBuffer, results)];
              inputBuffer := "";
              assert View() == Deliver(filled, h);
            }
          } else {
            CloseConnection([]);
          }
        case ReadFailed(errno) =>
          if errno != WouldBlock {
            CloseConnection([]);
          }
      }
    }

    method WriteToSocket(w: WriteResult)
      modifies this
      ensures View() == HandleWrite(old(View()), w)
    {
      if outputBuffer == "" {
        return;
      }
      var n := if w.Took? then Min(w.upTo, |outputBuffer|) else 0;
      if n > 0 {
        wire := wire + outputBuffer[..n];
        outputBuffer := outputBuffer[n..];
      } else {
        var errno := if w.Took? then w.staleErrno else w.errno;
        if errno != WouldBlock {
          CloseConnection([]);
        }
      }
    }

    /** Channel::handleEvent with the server's callbacks: the four tests are made in this order. */
    method DispatchEvent(revents: set<Flag>, r: ReadResult, h: Handler, w: WriteResult)
      modifies this
      ensures View() == HandleEvent(old(View()), revents, r, h, w)
    {
      hide View, Close, HandleRead, HandleWrite;
      if Hup in revents && In !in revents {
        CloseConnection([]);
      }
      if Err in revents || Nval in revents {
        CloseConnection([]);
      }
      if In in revents || Pri in revents || RdHup in revents {
        ReadFromSocket(r, h);
      }
      if Out in revents {
        WriteToSocket(w);
      }
    }
  }
}
