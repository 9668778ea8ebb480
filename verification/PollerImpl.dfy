/** Channels and pollers as objects. Each poller method is shown to do to the channels, to
    channels_, to the kernel's list and to polled_channels_ what its step in Poller does. */
module PollerImpl {
  import opened Common
  import opened Poller

  /** What the kernel may report for a descriptor (revents_). */
  datatype Ready = Readable | Writable | Exceptional

  class Channel {
    const fd: Fd
    var events: Mask
    var revents: set<Ready>
    var index: Index

    constructor (fd: Fd)
      ensures this.fd == fd && events == NO_EVENT && revents == {} && index == New
    {
      this.fd := fd;
      events, revents, index := NO_EVENT, {}, New;
    }

    /** enableReading and its siblings, before their call of update(). */
    method SetInterest(change: Change)
      modifies this`events
      ensures events == Apply(change, old(events))
      ensures change == EnableReading ==>
                In in events && Pri in events && (Out in events <==> Out in old(events))
      ensures change == DisableReading ==>
                In !in events && Pri !in events && (Out in events <==> Out in old(events))
      ensures change == EnableWriting ==>
                Out in events && (In in events <==> In in old(events)) && (Pri in events <==> Pri in old(events))
      ensures change == DisableWriting ==>
                Out !in events && (In in events <==> In in old(events)) && (Pri in events <==> Pri in old(events))
      ensures change == DisableAll ==> events == {}
    {
      match change
      case EnableReading => events := events + READ_EVENT;
      case DisableReading => events := events - READ_EVENT;
      case EnableWriting => events := events + WRITE_EVENT;
      case DisableWriting => events := events - WRITE_EVENT;
      case DisableAll => events := NO_EVENT;
    }
  }

  ghost function EventsMap(known: map<Fd, Channel>): map<Fd, Mask>
    reads known.Values
  {
    map fd | fd in known :: known[fd].events
  }

  ghost function ChansMap(known: map<Fd, Channel>): map<Fd, Chan>
    reads known.Values
  {
    map fd | fd in known :: Chan(known[fd].events, known[fd].index)
  }

  // ---------------------------------------------------------------- epoll

  class EpollPoller {
    var channels: map<Fd, Channel>
    var eventsSize: nat
    /** The kernel's interest list, and its refusals. */
    var kernel: map<Fd, Mask>
    ghost var refused: nat

    /** The channels made for this poller, by descriptor. */
    ghost var known: map<Fd, Channel>

    ghost predicate Linked()
      reads this
    {
      && (forall fd :: fd in known ==> known[fd].fd == fd)
      && (forall fd :: fd in channels ==> fd in known && channels[fd] == known[fd])
    }

    /** Between operations: the kernel has refused nothing, and its list, channels_ and the indices
        are in step with what the channels want. */
    ghost predicate Valid()
      reads this, known.Values
    {
      Linked() && EpollCoupled(View())
    }

    ghost function View(): EpollState
      reads this, known.Values
    {
      EpollState(ChansMap(known), channels.Keys, kernel, refused)
    }

    constructor ()
      ensures Valid() && known == map[] && View() == EPOLL_INIT && eventsSize == 16
    {
      channels, kernel, refused, known := map[], map[], 0, map[];
      eventsSize := INIT_EVENT_LIST_SIZE;
    }

    /** A channel made for a descriptor that has none yet changes nothing until it is updated. */
    ghost method Adopt(ch: Channel)
      requires Valid() && ch.fd !in known && ch.events == NO_EVENT && ch.index == New
      modifies this`known
      ensures Valid() && known == old(known)[ch.fd := ch]
      ensures forall fd :: ChanOf(View(), fd) == old(ChanOf(View(), fd))
    {
      ghost var before := View();
      known := known[ch.fd := ch];
      forall fd ensures CoupledAt(View(), fd) {
        assert CoupledAt(before, fd) && ChanOf(View(), fd) == ChanOf(before, fd);
      }
    }

    /** epoll_ctl. */
    method Ctl(op: CtlOp, ch: Channel)
      requires Linked() && ch.fd in known && known[ch.fd] == ch
      modifies this`kernel, this`refused
      ensures Linked() && View() == Poller.Ctl(old(View()), op, ch.fd)
    {
      var fd := ch.fd;
      assert ChanOf(View(), fd).events == ch.events;
      match op
      case CtlAdd => if fd in kernel { refused := refused + 1; } else { kernel := kernel[fd := ch.events]; }
      case CtlMod => if fd in kernel { kernel := kernel[fd := ch.events]; } else { refused := refused + 1; }
      case CtlDel => if fd in kernel { kernel := kernel - {fd}; } else { refused := refused + 1; }
    }

    method SetIndex(ch: Channel, index: Index)
      requires Linked() && ch.fd in known && known[ch.fd] == ch
      modifies ch`index
      ensures View() == Poller.SetIndex(old(View()), ch.fd, index)
    {
      ch.index := index;
      assert forall fd :: fd in known && fd != ch.fd ==> known[fd].fd != ch.fd;
    }

    lemma ViewAt(ch: Channel)
      requires Linked() && ch.fd in known && known[ch.fd] == ch
      ensures ChanOf(View(), ch.fd) == Chan(ch.events, ch.index)
    {
    }

    method Register(ch: Channel)
      requires Linked() && ch.fd in known && known[ch.fd] == ch
      modifies this`channels
      ensures Linked() && View() == old(View()).(registry := old(View()).registry + {ch.fd})
    {
      channels := channels[ch.fd := ch];
    }

    method Unregister(ch: Channel)
      requires Linked()
      modifies this`channels
      ensures Linked() && View() == old(View()).(registry := old(View()).registry - {ch.fd})
    {
      channels := channels - {ch.fd};
    }

    method UpdateChannel(ch: Channel)
      requires Linked() && ch.fd in known && known[ch.fd] == ch
      modifies this`channels, this`kernel, this`refused, ch`index
      ensures Linked() && View() == EpollUpdate(old(View()), ch.fd)
    {
      hide View, Poller.Ctl, Poller.SetIndex, ChanOf;
      ViewAt(ch);
      if ch.index == New || ch.index == Deleted {
        if ch.index == New {
          Register(ch);
        }
        SetIndex(ch, Added);
        Ctl(CtlAdd, ch);
      } else if ch.events == NO_EVENT {
        Ctl(CtlDel, ch);
        SetIndex(ch, Deleted);
      } else {
        Ctl(CtlMod, ch);
      }
    }

    method RemoveChannel(ch: Channel)
      requires Valid() && ch.fd in known && known[ch.fd] == ch && ch.events == NO_EVENT
      modifies this`channels, this`kernel, this`refused, ch`index
      ensures Valid() && View() == EpollStep(old(View()), Remove(ch.fd))
    {
      hide View, Poller.Ctl, Poller.SetIndex, ChanOf;
      ViewAt(ch);
      Unregister(ch);
      if ch.index == Added {
        Ctl(CtlDel, ch);
      }
      SetIndex(ch, New);
      EpollStepStaysCoupled(old(View()), Remove(ch.fd));
    }

    /** Channel::enableReading and its siblings on a channel of this poller. */
    method Change(ch: Channel, change: Poller.Change)
      requires Valid() && ch.fd in known && known[ch.fd] == ch
      modifies this`channels, this`kernel, this`refused, ch
      ensures Valid() && View() == EpollStep(old(View()), Update(ch.fd, change))
    {
      assert ChanOf(View(), ch.fd) == Chan(ch.events, ch.index);
      ch.SetInterest(change);
      assert forall fd :: fd in known && fd != ch.fd ==> known[fd].fd != ch.fd;
      assert View() == old(View()).(chans := old(View()).chans[ch.fd := Chan(ch.events, ch.index)]);
      UpdateChannel(ch);
      EpollStepStaysCoupled(old(View()), Update(ch.fd, change));
    }

    /** epoll_wait has filled `reported`, no more than there is room for. Its channels become the
        active list in that order with their events noted, and a full buffer doubles. */
    method Poll(reported: seq<(Channel, set<Ready>)>) returns (active: seq<Channel>)
      requires Valid() && |reported| <= eventsSize
      requires forall i, j :: 0 <= i < j < |reported| ==> reported[i].0 != reported[j].0
      modifies this`eventsSize, set i | 0 <= i < |reported| :: reported[i].0`revents
      ensures |active| == |reported|
      ensures forall i :: 0 <= i < |active| ==> active[i] == reported[i].0 && active[i].revents == reported[i].1
      ensures eventsSize == Grown(old(eventsSize), |reported|)
      ensures Valid() && View() == old(View())
    {
      active := [];
      ghost var before := View();
      for i := 0 to |reported|
        invariant |active| == i && eventsSize == old(eventsSize)
        invariant forall k :: 0 <= k < i ==> active[k] == reported[k].0 && active[k].revents == reported[k].1
      {
        reported[i].0.revents := reported[i].1;
        active := active + [reported[i].0];
      }
      if |reported| > 0 && |reported| == eventsSize {
        eventsSize := eventsSize * 2;
      }
      assert View() == before;
    }
  }

  // ---------------------------------------------------------------- select

  /** select's answer: negative on error, else how many bits it left set in the three sets. */
  datatype SelectResult = SelectResult(count: int, readFds: set<Fd>, writeFds: set<Fd>, exceptFds: set<Fd>)

  function ReadyBits(fd: Fd, r: SelectResult): set<Ready> {
    (if fd in r.readFds then {Readable} else {}) +
    (if fd in r.writeFds then {Writable} else {}) +
    (if fd in r.exceptFds then {Exceptional} else {})
  }

  function FdsOf(channels: seq<Channel>): (fds: seq<Fd>)
    ensures |fds| == |channels| && forall i :: 0 <= i < |fds| ==> fds[i] == channels[i].fd
  {
    if channels == [] then [] else [channels[0].fd] + FdsOf(channels[1..])
  }

  /** The channels select reported something for, in the order of the vector. */
  function ActiveOf(channels: seq<Channel>, r: SelectResult): seq<Channel> {
    if channels == [] then []
    else
      var last := channels[|channels| - 1];
      ActiveOf(channels[..|channels| - 1], r) + if ReadyBits(last.fd, r) != {} then [last] else []
  }

  /** The vector is a duplicate-free listing of the registry. */
  ghost predicate Lists(xs: seq<Channel>, channels: map<Fd, Channel>) {
    && NoDuplicates(xs)
    && (forall ch :: ch in xs ==> ch.fd in channels && channels[ch.fd] == ch)
    && Covers(xs, channels)
  }

  ghost predicate Covers(xs: seq<Channel>, channels: map<Fd, Channel>) {
    forall fd :: fd in channels ==> channels[fd] in xs && channels[fd].fd == fd
  }

  class SelectPoller {
    var channels: map<Fd, Channel>
    var polledChannels: seq<Channel>

    ghost var known: map<Fd, Channel>

    ghost predicate Valid()
      reads this
    {
      && (forall fd :: fd in known ==> known[fd].fd == fd)
      && (forall fd :: fd in channels ==> fd in known && channels[fd] == known[fd])
      && Lists(polledChannels, channels)
    }

    ghost function View(): SelectState
      reads this, known.Values
    {
      SelectState(EventsMap(known), channels.Keys, FdsOf(polledChannels))
    }

    constructor ()
      ensures Valid() && known == map[] && View() == SELECT_INIT
    {
      channels, polledChannels, known := map[], [], map[];
    }

    /** A channel made for a descriptor that has none yet changes nothing until it is updated. */
    ghost method Adopt(ch: Channel)
      requires Valid() && ch.fd !in known && ch.events == NO_EVENT
      modifies this`known
      ensures Valid() && known == old(known)[ch.fd := ch]
      ensures forall fd :: EventsOf(View(), fd) == old(EventsOf(View(), fd))
      ensures View().registry == old(View().registry) && View().polled == old(View().polled)
    {
      known := known[ch.fd := ch];
    }

    method UpdateChannel(ch: Channel)
      requires Valid() && ch.fd in known && known[ch.fd] == ch
      modifies this`channels, this`polledChannels
      ensures Valid() && View() == SelectUpdate(old(View()), ch.fd)
    {
      hide Lists;
      if ch.fd !in channels {
        AdditionKeepsVector(channels, polledChannels, ch);
        channels := channels[ch.fd := ch];
        polledChannels := polledChannels + [ch];
      }
    }

    /** Channel::enableReading and its siblings on a channel of this poller. */
    method Change(ch: Channel, change: Poller.Change)
      requires Valid() && ch.fd in known && known[ch.fd] == ch
      modifies this`channels, this`polledChannels, ch
      ensures Valid() && View() == SelectStep(old(View()), Update(ch.fd, change))
    {
      hide SelectUpdate;
      assert EventsOf(View(), ch.fd) == ch.events;
      ch.SetInterest(change);
      assert forall fd :: fd in known && fd != ch.fd ==> known[fd].fd != ch.fd;
      assert View() == old(View()).(events := old(View()).events[ch.fd := ch.events]);
      UpdateChannel(ch);
    }

    method RemoveChannel(ch: Channel)
      requires Valid() && ch.fd in known && known[ch.fd] == ch
      modifies this`channels, this`polledChannels
      ensures Valid() && View() == SelectRemove(old(View()), ch.fd)
    {
      hide Lists;
      if ch.fd in channels {
        RemovalKeepsVector(channels, polledChannels, ch);
        channels := channels - {ch.fd};
        EraseFromVector(ch);
      }
    }

    method EraseFromVector(ch: Channel)
      modifies this`polledChannels
      ensures polledChannels == Without<Channel>(old(polledChannels), ch)
    {
      var at := IndexOf(ch);
      WithoutAt<Channel>(polledChannels, ch, at);
      if at < |polledChannels| {
        polledChannels := polledChannels[..at] + polledChannels[at + 1..];
      }
    }

    /** std::find over polled_channels_. */
    method IndexOf(ch: Channel) returns (at: nat)
      ensures at <= |polledChannels|
      ensures forall k :: 0 <= k < at ==> polledChannels[k] != ch
      ensures at < |polledChannels| ==> polledChannels[at] == ch
    {
      at := 0;
      while at < |polledChannels| && polledChannels[at] != ch
        invariant at <= |polledChannels|
        invariant forall k :: 0 <= k < at ==> polledChannels[k] != ch
      {
        at := at + 1;
      }
    }

    /** The sets handed to select, and the bound on its descriptors. */
    method FillSets() returns (readFds: set<Fd>, writeFds: set<Fd>, exceptFds: set<Fd>, maxFd: nat)
      requires Valid()
      ensures readFds == SelectReads(View())
      ensures writeFds == SelectWrites(View())
      ensures exceptFds == set fd | fd in FdsOf(polledChannels)
      ensures forall ch :: ch in polledChannels ==>
                && (ch.fd in readFds <==> In in ch.events || Pri in ch.events)
                && (ch.fd in writeFds <==> Out in ch.events)
                && ch.fd in exceptFds
      ensures forall fd :: fd in exceptFds ==> fd <= maxFd
      ensures maxFd == 0 || maxFd in exceptFds
    {
      hide IsReading, IsWriting, Covers;
      readFds, writeFds, exceptFds, maxFd := {}, {}, {}, 0;
      ghost var s := View();
      for i := 0 to |polledChannels|
        invariant forall fd :: fd in readFds <==> fd in s.polled[..i] && IsReading(EventsOf(s, fd))
        invariant forall fd :: fd in writeFds <==> fd in s.polled[..i] && IsWriting(EventsOf(s, fd))
        invariant forall fd :: fd in exceptFds <==> fd in s.polled[..i]
        invariant forall fd :: fd in exceptFds ==> fd <= maxFd
        invariant maxFd == 0 || maxFd in exceptFds
      {
        var ch := polledChannels[i];
        assert s.polled[..i + 1] == s.polled[..i] + [ch.fd];
        assert EventsOf(s, ch.fd) == ch.events;
        if IsReading(ch.events) {
          readFds := readFds + {ch.fd};
        }
        if IsWriting(ch.events) {
          writeFds := writeFds + {ch.fd};
        }
        exceptFds := exceptFds + {ch.fd};
        maxFd := if maxFd < ch.fd then ch.fd else maxFd;
      }
      assert s.polled[..|polledChannels|] == s.polled;
      forall i | 0 <= i < |polledChannels|
        ensures var ch := polledChannels[i];
                && (ch.fd in readFds <==> In in ch.events || Pri in ch.events)
                && (ch.fd in writeFds <==> Out in ch.events)
                && ch.fd in exceptFds
      {
        var ch := polledChannels[i];
        assert s.polled[i] == ch.fd && EventsOf(s, ch.fd) == ch.events;
        WatchedBits(ch.events);
      }
    }

    /** poll: with nothing registered it returns at once; otherwise select is asked about exactly the
        watched descriptors, all below the bound it is given. */
    method Poll(r: SelectResult) returns (active: seq<Channel>, bound: nat)
      requires Valid()
      modifies set i | 0 <= i < |polledChannels| :: polledChannels[i]`revents
      ensures active == if r.count > 0 then ActiveOf(polledChannels, r) else []
      ensures forall ch :: ch in active <==>
                && r.count > 0 && ch in polledChannels
                && (ch.fd in r.readFds || ch.fd in r.writeFds || ch.fd in r.exceptFds)
      ensures forall ch :: ch in active ==>
                && (Readable in ch.revents <==> ch.fd in r.readFds)
                && (Writable in ch.revents <==> ch.fd in r.writeFds)
                && (Exceptional in ch.revents <==> ch.fd in r.exceptFds)
      ensures forall ch :: ch in polledChannels && ch !in active ==> ch.revents == old(ch.revents)
      ensures forall ch :: ch in polledChannels ==> ch.fd < bound
    {
      hide Covers, NoDuplicates, ReadyBits, View;
      active, bound := [], 0;
      if polledChannels != [] {
        var readFds, writeFds, exceptFds, maxFd := FillSets();
        bound := maxFd + 1;
        assert forall i :: 0 <= i < |polledChannels| ==> FdsOf(polledChannels)[i] in exceptFds;
        active := CollectActive(r);
        ActiveMembers(polledChannels, r);
        ReadyBitsOf(r);
      }
    }

    /** The second half of poll: the active list is the order-preserving filter of the vector, and
        each active channel notes exactly what was reported for it. */
    method CollectActive(r: SelectResult) returns (active: seq<Channel>)
      requires Valid()
      modifies set i | 0 <= i < |polledChannels| :: polledChannels[i]`revents
      ensures active == if r.count > 0 then ActiveOf(polledChannels, r) else []
      ensures forall ch :: ch in active ==> ch.revents == ReadyBits(ch.fd, r)
      ensures forall ch :: ch in polledChannels && ch !in active ==> ch.revents == old(ch.revents)
    {
      hide Covers, NoDuplicates, ReadyBits;
      active := [];
      if r.count > 0 {
        for i := 0 to |polledChannels|
          invariant active == ActiveOf(polledChannels[..i], r)
          invariant forall ch :: ch in active ==> ch in polledChannels[..i] && ch.revents == ReadyBits(ch.fd, r)
          invariant forall ch :: ch in polledChannels && ch !in active ==> ch.revents == old(ch.revents)
        {
          var ch := polledChannels[i];
          assert polledChannels[..i + 1][..i] == polledChannels[..i];
          NotBefore<Channel>(polledChannels, i);
          var bits := ReadyBits(ch.fd, r);
          if bits != {} {
            ch.revents := bits;
            active := active + [ch];
          }
        }
        assert polledChannels[..|polledChannels|] == polledChannels;
      }
    }
  }

  lemma NotBefore<T>(xs: seq<T>, i: nat)
    requires NoDuplicates(xs) && i < |xs|
    ensures xs[i] !in xs[..i]
  {
  }

  /** Dropping a channel from the vector drops its descriptor: descriptors are distinct. */
  lemma {:induction false} FdsWithout(known: map<Fd, Channel>, xs: seq<Channel>, ch: Channel)
    requires ch.fd in known && known[ch.fd] == ch
    requires forall x :: x in xs ==> x.fd in known && known[x.fd] == x
    ensures FdsOf(Without<Channel>(xs, ch)) == Without(FdsOf(xs), ch.fd)
    decreases |xs|
  {
    if xs != [] {
      assert xs[0] in xs;
      assert xs[0] == ch <==> xs[0].fd == ch.fd;
      assert FdsOf(xs)[1..] == FdsOf(xs[1..]);
      if xs[0] != ch {
        FdsWithout(known, xs[1..], ch);
        var out := Without<Channel>(xs, ch);
        assert out[0] == xs[0] && out[1..] == Without<Channel>(xs[1..], ch);
      }
    }
  }

  lemma AdditionKeepsVector(channels: map<Fd, Channel>, xs: seq<Channel>, ch: Channel)
    requires Lists(xs, channels) && ch.fd !in channels
    ensures Lists(xs + [ch], channels[ch.fd := ch])
    ensures FdsOf(xs + [ch]) == FdsOf(xs) + [ch.fd]
  {
    assert ch !in xs;
    var channels' := channels[ch.fd := ch];
    forall fd | fd in channels' ensures channels'[fd] in xs + [ch] && channels'[fd].fd == fd {
      if fd != ch.fd {
        assert channels[fd] in xs;
      }
    }
  }

  /** The vector still lists, once each, the channels that the registry holds. */
  lemma RemovalKeepsVector(channels: map<Fd, Channel>, xs: seq<Channel>, ch: Channel)
    requires Lists(xs, channels) && ch.fd in channels && channels[ch.fd] == ch
    ensures Lists(Without<Channel>(xs, ch), channels - {ch.fd})
    ensures FdsOf(Without<Channel>(xs, ch)) == Without(FdsOf(xs), ch.fd)
  {
    FdsWithout(channels, xs, ch);
    WithoutDropsOne<Channel>(xs, ch);
    LeftListed(channels, xs, ch, Without<Channel>(xs, ch));
  }

  lemma LeftListed(channels: map<Fd, Channel>, xs: seq<Channel>, ch: Channel, out: seq<Channel>)
    requires Lists(xs, channels) && ch.fd in channels && channels[ch.fd] == ch
    requires NoDuplicates(out) && forall x :: x in out <==> x in xs && x != ch
    ensures Lists(out, channels - {ch.fd})
  {
    hide NoDuplicates;
    forall x | x in out ensures x.fd != ch.fd && x.fd in channels && channels[x.fd] == x {
      assert x in xs && x != ch;
    }
    forall fd | fd in channels && fd != ch.fd ensures channels[fd] in out && channels[fd].fd == fd {
      assert channels[fd] in xs;
    }
  }

  /** Erasing at the first occurrence, where std::find stops. */
  lemma WithoutAt<T>(xs: seq<T>, x: T, at: nat)
    requires at <= |xs| && (at < |xs| ==> xs[at] == x)
    requires forall k :: 0 <= k < at ==> xs[k] != x
    ensures Without(xs, x) == if at < |xs| then xs[..at] + xs[at + 1..] else xs
  {
    hide Without;
    if at < |xs| {
      assert xs == xs[..at] + ([x] + xs[at + 1..]);
    }
    WithoutBefore(xs[..at], xs[at..], x);
    WithoutFirst(xs[at..], x);
    assert xs[..at] + xs[at..] == xs;
  }

  lemma WithoutFirst<T>(xs: seq<T>, x: T)
    requires xs != [] ==> xs[0] == x
    ensures Without(xs, x) == if xs == [] then [] else xs[1..]
  {
  }

  lemma {:induction false} WithoutBefore<T>(a: seq<T>, b: seq<T>, x: T)
    requires x !in a
    ensures Without(a + b, x) == a + Without(b, x)
    decreases |a|
  {
    if a == [] {
      assert a + b == b;
    } else {
      assert (a + b)[0] == a[0] && (a + b)[1..] == a[1..] + b;
      WithoutBefore(a[1..], b, x);
      hide Without;
    }
  }

  /** Which answer of select gives which bit. */
  lemma ReadyBitsOf(r: SelectResult)
    ensures forall fd :: Readable in ReadyBits(fd, r) <==> fd in r.readFds
    ensures forall fd :: Writable in ReadyBits(fd, r) <==> fd in r.writeFds
    ensures forall fd :: Exceptional in ReadyBits(fd, r) <==> fd in r.exceptFds
  {
  }

  lemma ActiveMembers(channels: seq<Channel>, r: SelectResult)
    ensures forall ch :: ch in ActiveOf(channels, r) <==>
              ch in channels && (ch.fd in r.readFds || ch.fd in r.writeFds || ch.fd in r.exceptFds)
  {
    ActiveOfFilters([], channels, r);
    forall fd: Fd
      ensures ReadyBits(fd, r) != {} <==> fd in r.readFds || fd in r.writeFds || fd in r.exceptFds
    {
      ReadyBitsOf(r);
    }
  }

  /** The active list is the filter of the vector by non-empty readiness: it has exactly those
      members, and filtering a concatenation concatenates, so the order is the vector's. */
  lemma {:induction false} ActiveOfFilters(a: seq<Channel>, b: seq<Channel>, r: SelectResult)
    ensures ActiveOf(a + b, r) == ActiveOf(a, r) + ActiveOf(b, r)
    ensures forall ch :: ch in ActiveOf(b, r) <==> ch in b && ReadyBits(ch.fd, r) != {}
    decreases |b|
  {
    if b == [] {
      assert a + b == a;
    } else {
      var n := |b| - 1;
      assert (a + b)[..|a + b| - 1] == a + b[..n];
      ActiveOfFilters(a, b[..n], r);
      assert b == b[..n] + [b[n]];
    }
  }
}
