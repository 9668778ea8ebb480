/** What the two pollers keep: epoll's mirrored kernel interest list with its three-valued index,
    select's registry with its vector, and the one interest map both implement. Channels are
    identified by their descriptors, which are distinct while open. */
module Poller {
  import opened Common

  type Fd = nat

  datatype Bit = In | Pri | Out

  type Mask = set<Bit>

  const NO_EVENT: Mask := {}
  const READ_EVENT: Mask := {In, Pri}
  const WRITE_EVENT: Mask := {Out}

  predicate IsReading(m: Mask) { m * READ_EVENT != {} }

  predicate IsWriting(m: Mask) { m * WRITE_EVENT != {} }

  datatype Change = EnableReading | DisableReading | EnableWriting | DisableWriting | DisableAll

  /** The effect of enableReading and its siblings on events_. */
  function Apply(change: Change, m: Mask): Mask {
    match change
    case EnableReading => m + READ_EVENT
    case DisableReading => m - READ_EVENT
    case EnableWriting => m + WRITE_EVENT
    case DisableWriting => m - WRITE_EVENT
    case DisableAll => NO_EVENT
  }

  /** A channel changes its interest and updates its poller, or is removed. */
  datatype Op = Update(fd: Fd, change: Change) | Remove(fd: Fd)

  // ---------------------------------------------------------------- the interest map

  /** Registered descriptors with what they are watched for. */
  type Interest = map<Fd, Mask>

  function MaskIn(s: Interest, fd: Fd): Mask {
    if fd in s then s[fd] else NO_EVENT
  }

  /** remove() asserts that the channel has no events left. */
  predicate Allowed(s: Interest, op: Op) {
    op.Remove? ==> MaskIn(s, op.fd) == NO_EVENT
  }

  function InterestStep(s: Interest, op: Op): Interest {
    match op
    case Update(fd, change) => s[fd := Apply(change, MaskIn(s, fd))]
    case Remove(fd) => s - {fd}
  }

  predicate AllAllowed(ops: seq<Op>)
    decreases |ops|, 0
  {
    ops == [] ||
    (AllAllowed(ops[..|ops| - 1]) && Allowed(InterestRun(ops[..|ops| - 1]), ops[|ops| - 1]))
  }

  function InterestRun(ops: seq<Op>): Interest
    decreases |ops|, 0
  {
    if ops == [] then map[] else InterestStep(InterestRun(ops[..|ops| - 1]), ops[|ops| - 1])
  }

  ghost function Reads(s: Interest): set<Fd> {
    set fd | fd in s && IsReading(s[fd])
  }

  ghost function Writes(s: Interest): set<Fd> {
    set fd | fd in s && IsWriting(s[fd])
  }

  // ---------------------------------------------------------------- epoll

  datatype Index = New | Added | Deleted

  datatype Chan = Chan(events: Mask, index: Index)

  /** The channels of this poller, the keys of channels_, the kernel's interest list, and how many
      epoll_ctl calls the kernel has refused. */
  datatype EpollState = EpollState(chans: map<Fd, Chan>, registry: set<Fd>, kernel: map<Fd, Mask>, refused: nat)

  const EPOLL_INIT: EpollState := EpollState(map[], {}, map[], 0)

  datatype CtlOp = CtlAdd | CtlMod | CtlDel

  function ChanOf(s: EpollState, fd: Fd): Chan {
    if fd in s.chans then s.chans[fd] else Chan(NO_EVENT, New)
  }

  /** epoll_ctl refuses to add a descriptor twice, and to modify or delete an absent one. */
  function Ctl(s: EpollState, op: CtlOp, fd: Fd): EpollState {
    var mask := ChanOf(s, fd).events;
    match op
    case CtlAdd =>
      if fd in s.kernel then s.(refused := s.refused + 1) else s.(kernel := s.kernel[fd := mask])
    case CtlMod =>
      if fd in s.kernel then s.(kernel := s.kernel[fd := mask]) else s.(refused := s.refused + 1)
    case CtlDel =>
      if fd in s.kernel then s.(kernel := s.kernel - {fd}) else s.(refused := s.refused + 1)
  }

  function SetIndex(s: EpollState, fd: Fd, index: Index): EpollState {
    s.(chans := s.chans[fd := ChanOf(s, fd).(index := index)])
  }

  function EpollUpdate(s: EpollState, fd: Fd): EpollState {
    var c := ChanOf(s, fd);
    if c.index.New? || c.index.Deleted? then
      var s1 := if c.index.New? then s.(registry := s.registry + {fd}) else s;
      Ctl(SetIndex(s1, fd, Added), CtlAdd, fd)
    else if c.events == NO_EVENT then SetIndex(Ctl(s, CtlDel, fd), fd, Deleted)
    else Ctl(s, CtlMod, fd)
  }

  function EpollRemove(s: EpollState, fd: Fd): EpollState {
    var s1 := s.(registry := s.registry - {fd});
    var s2 := if ChanOf(s, fd).index.Added? then Ctl(s1, CtlDel, fd) else s1;
    SetIndex(s2, fd, New)
  }

  function EpollStep(s: EpollState, op: Op): EpollState {
    match op
    case Update(fd, change) =>
      var c := ChanOf(s, fd);
      EpollUpdate(s.(chans := s.chans[fd := c.(events := Apply(change, c.events))]), fd)
    case Remove(fd) => EpollRemove(s, fd)
  }

  function EpollRun(ops: seq<Op>): EpollState {
    if ops == [] then EPOLL_INIT else EpollStep(EpollRun(ops[..|ops| - 1]), ops[|ops| - 1])
  }

  /** For one descriptor: the index says whether the kernel and channels_ hold it, the kernel holds
      what the channel wants, and a channel it does not hold wants nothing. */
  predicate CoupledAt(s: EpollState, fd: Fd) {
    && (fd in s.kernel <==> ChanOf(s, fd).index == Added)
    && (fd in s.kernel ==> s.kernel[fd] == ChanOf(s, fd).events)
    && (fd in s.registry <==> ChanOf(s, fd).index != New)
    && (ChanOf(s, fd).index != Added ==> ChanOf(s, fd).events == NO_EVENT)
  }

  ghost predicate EpollCoupled(s: EpollState) {
    s.refused == 0 && forall fd :: CoupledAt(s, fd)
  }

  predicate RefinesAt(s: EpollState, a: Interest, fd: Fd) {
    (fd in s.registry <==> fd in a) && ChanOf(s, fd).events == MaskIn(a, fd)
  }

  ghost predicate EpollRefines(s: EpollState, a: Interest) {
    forall fd :: RefinesAt(s, a, fd)
  }

  lemma EpollStepCoupled(s: EpollState, a: Interest, op: Op)
    requires EpollCoupled(s) && EpollRefines(s, a) && Allowed(a, op)
    ensures EpollCoupled(EpollStep(s, op)) && EpollRefines(EpollStep(s, op), InterestStep(a, op))
  {
    hide EpollStep, InterestStep;
    var s', a' := EpollStep(s, op), InterestStep(a, op);
    EpollStepHere(s, a, op);
    forall fd ensures CoupledAt(s', fd) && RefinesAt(s', a', fd) {
      assert CoupledAt(s, fd) && RefinesAt(s, a, fd);
      if fd != op.fd {
        EpollStepElsewhere(s, a, op, fd);
      }
    }
  }

  /** The channel the operation is about. */
  lemma EpollStepHere(s: EpollState, a: Interest, op: Op)
    requires s.refused == 0 && CoupledAt(s, op.fd) && RefinesAt(s, a, op.fd) && Allowed(a, op)
    ensures EpollStep(s, op).refused == 0
    ensures CoupledAt(EpollStep(s, op), op.fd)
    ensures RefinesAt(EpollStep(s, op), InterestStep(a, op), op.fd)
  {
  }

  /** Any other channel. */
  lemma EpollStepElsewhere(s: EpollState, a: Interest, op: Op, fd: Fd)
    requires fd != op.fd && CoupledAt(s, fd) && RefinesAt(s, a, fd)
    ensures CoupledAt(EpollStep(s, op), fd)
    ensures RefinesAt(EpollStep(s, op), InterestStep(a, op), fd)
  {
  }

  /** Read off the poller itself: a step keeps the coupling, provided remove finds an empty mask. */
  lemma EpollStepStaysCoupled(s: EpollState, op: Op)
    requires EpollCoupled(s)
    requires op.Remove? ==> ChanOf(s, op.fd).events == NO_EVENT
    ensures EpollCoupled(EpollStep(s, op))
  {
    hide EpollStep;
    var a: Interest := map fd | fd in s.registry :: ChanOf(s, fd).events;
    forall fd ensures RefinesAt(s, a, fd) {
      assert CoupledAt(s, fd);
    }
    EpollStepCoupled(s, a, op);
  }

  /** Over every sequence of interest changes and removals the kernel never refuses a call: none adds
      a present descriptor, none modifies or deletes an absent one, including when a channel that
      was deleted, or never added, is updated with an empty mask. The index, the registry and the
      kernel's masks stay in step with the channels. */
  lemma {:induction false} EpollNeverRefused(ops: seq<Op>)
    requires AllAllowed(ops)
    ensures EpollCoupled(EpollRun(ops)) && EpollRefines(EpollRun(ops), InterestRun(ops))
    decreases |ops|
  {
    if ops != [] {
      var before := ops[..|ops| - 1];
      EpollNeverRefused(before);
      EpollStepCoupled(EpollRun(before), InterestRun(before), ops[|ops| - 1]);
    }
  }

  // ---------------------------------------------------------------- which bits the kernel watches

  /** Each change, bit by bit. */
  lemma ChangeSetsBits(change: Change, m: Mask)
    ensures var m' := Apply(change, m);
            && (change == EnableReading ==> In in m' && Pri in m' && (Out in m' <==> Out in m))
            && (change == DisableReading ==> In !in m' && Pri !in m' && (Out in m' <==> Out in m))
            && (change == EnableWriting ==> Out in m' && (In in m' <==> In in m) && (Pri in m' <==> Pri in m))
            && (change == DisableWriting ==> Out !in m' && (In in m' <==> In in m) && (Pri in m' <==> Pri in m))
            && (change == DisableAll ==> In !in m' && Pri !in m' && Out !in m')
  {
  }

  /** The three bits are all there is to a mask. */
  lemma EmptyMask(m: Mask)
    ensures m == NO_EVENT <==> In !in m && Pri !in m && Out !in m
  {
    if b :| b in m {
      assert b == In || b == Pri || b == Out;
    }
  }

  /** epoll's list after one more change, bit by bit, over every permitted history. Enabling puts the
      descriptor in the list with its bits. Disabling takes it out exactly when it was there and no
      bit is left; one that was not there is put in, watched for nothing. */
  lemma ChangeReachesKernel(ops: seq<Op>, fd: Fd, change: Change)
    requires AllAllowed(ops)
    ensures var k, k' := EpollRun(ops).kernel, EpollRun(ops + [Update(fd, change)]).kernel;
            var hadIn, hadPri, hadOut := fd in k && In in k[fd], fd in k && Pri in k[fd], fd in k && Out in k[fd];
            && (change == EnableReading ==> fd in k' && In in k'[fd] && Pri in k'[fd] && (Out in k'[fd] <==> hadOut))
            && (change == EnableWriting ==>
                  fd in k' && Out in k'[fd] && (In in k'[fd] <==> hadIn) && (Pri in k'[fd] <==> hadPri))
            && (change == DisableReading ==>
                  && (fd in k' <==> fd !in k || hadOut)
                  && (fd in k' ==> In !in k'[fd] && Pri !in k'[fd] && (Out in k'[fd] <==> hadOut)))
            && (change == DisableWriting ==>
                  && (fd in k' <==> fd !in k || hadIn || hadPri)
                  && (fd in k' ==> Out !in k'[fd] && (In in k'[fd] <==> hadIn) && (Pri in k'[fd] <==> hadPri)))
            && (change == DisableAll ==>
                  && (fd in k' <==> fd !in k)
                  && (fd in k' ==> In !in k'[fd] && Pri !in k'[fd] && Out !in k'[fd]))
            && (forall other :: other != fd ==>
                  (other in k' <==> other in k) && (other in k ==> k'[other] == k[other]))
  {
    var op := Update(fd, change);
    assert (ops + [op])[..|ops + [op]| - 1] == ops;
    EpollNeverRefused(ops);
    var s := EpollRun(ops);
    assert CoupledAt(s, fd);
    var m := ChanOf(s, fd).events;
    ChangeSetsBits(change, m);
    EmptyMask(m);
    EmptyMask(Apply(change, m));
    UpdateInKernel(s, fd, change);
    hide EpollStep, Apply, EpollRun;
  }

  lemma UpdateInKernel(s: EpollState, fd: Fd, change: Change)
    requires CoupledAt(s, fd)
    ensures var k' := EpollStep(s, Update(fd, change)).kernel;
            var m' := Apply(change, ChanOf(s, fd).events);
            && (fd in k' <==> fd !in s.kernel || m' != NO_EVENT)
            && (fd in k' ==> k'[fd] == m')
            && (forall other :: other != fd ==>
                  (other in k' <==> other in s.kernel) && (other in s.kernel ==> k'[other] == s.kernel[other]))
  {
  }

  /** A removed descriptor is in neither poller. */
  lemma RemovalReachesKernel(ops: seq<Op>, fd: Fd)
    requires AllAllowed(ops) && MaskIn(InterestRun(ops), fd) == NO_EVENT
    ensures var e, s := EpollRun(ops + [Remove(fd)]), SelectRun(ops + [Remove(fd)]);
            fd !in e.kernel && fd !in e.registry && fd !in s.polled && fd !in s.registry
  {
    var op := Remove(fd);
    assert (ops + [op])[..|ops + [op]| - 1] == ops;
    assert AllAllowed(ops + [op]);
    EpollNeverRefused(ops + [op]);
    SelectStaysCoupled(ops + [op]);
    assert CoupledAt(EpollRun(ops + [op]), fd);
  }

  // ---------------------------------------------------------------- select

  /** The channels' masks, the keys of channels_, and polled_channels_ by descriptor. */
  datatype SelectState = SelectState(events: map<Fd, Mask>, registry: set<Fd>, polled: seq<Fd>)

  const SELECT_INIT: SelectState := SelectState(map[], {}, [])

  function EventsOf(s: SelectState, fd: Fd): Mask {
    if fd in s.events then s.events[fd] else NO_EVENT
  }

  function SelectUpdate(s: SelectState, fd: Fd): SelectState {
    if fd in s.registry then s else s.(registry := s.registry + {fd}, polled := s.polled + [fd])
  }

  /** erase(std::find(...)): drops the first occurrence. */
  function Without<T(==)>(xs: seq<T>, x: T): seq<T> {
    if xs == [] then []
    else if xs[0] == x then xs[1..]
    else [xs[0]] + Without(xs[1..], x)
  }

  function SelectRemove(s: SelectState, fd: Fd): SelectState {
    if fd in s.registry then s.(registry := s.registry - {fd}, polled := Without(s.polled, fd)) else s
  }

  function SelectStep(s: SelectState, op: Op): SelectState {
    match op
    case Update(fd, change) =>
      SelectUpdate(s.(events := s.events[fd := Apply(change, EventsOf(s, fd))]), fd)
    case Remove(fd) => SelectRemove(s, fd)
  }

  function SelectRun(ops: seq<Op>): SelectState {
    if ops == [] then SELECT_INIT else SelectStep(SelectRun(ops[..|ops| - 1]), ops[|ops| - 1])
  }

  ghost predicate NoDuplicates<T>(xs: seq<T>) {
    forall i, j :: 0 <= i < j < |xs| ==> xs[i] != xs[j]
  }

  ghost predicate SelectCoupled(s: SelectState) {
    && NoDuplicates(s.polled)
    && (forall fd :: fd in s.polled <==> fd in s.registry)
  }

  predicate SelectRefinesAt(s: SelectState, a: Interest, fd: Fd) {
    (fd in s.registry <==> fd in a) && EventsOf(s, fd) == MaskIn(a, fd)
  }

  ghost predicate SelectRefines(s: SelectState, a: Interest) {
    forall fd :: SelectRefinesAt(s, a, fd)
  }

  lemma {:induction false} WithoutDropsOne<T>(xs: seq<T>, x: T)
    requires NoDuplicates(xs)
    ensures NoDuplicates(Without(xs, x))
    ensures forall y :: y in Without(xs, x) <==> y in xs && y != x
    decreases |xs|
  {
    if xs != [] {
      var rest := xs[1..];
      assert forall y :: y in xs <==> y == xs[0] || y in rest;
      if xs[0] == x {
        assert x !in rest;
      } else {
        assert NoDuplicates(rest);
        WithoutDropsOne(rest, x);
        var out := Without(rest, x);
        assert xs[0] !in out;
        assert forall y :: y in [xs[0]] + out <==> y == xs[0] || y in out;
      }
    }
  }

  lemma SelectStepCoupled(s: SelectState, a: Interest, op: Op)
    requires SelectCoupled(s) && SelectRefines(s, a) && Allowed(a, op)
    ensures SelectCoupled(SelectStep(s, op)) && SelectRefines(SelectStep(s, op), InterestStep(a, op))
  {
    var s', a' := SelectStep(s, op), InterestStep(a, op);
    forall fd ensures SelectRefinesAt(s', a', fd) {
      assert SelectRefinesAt(s, a, fd) && SelectRefinesAt(s, a, op.fd);
    }
    match op
    case Update(fd, _) =>
      assert fd !in s.registry ==> fd !in s.polled && s'.polled == s.polled + [fd];
    case Remove(fd) => WithoutDropsOne(s.polled, fd);
  }

  lemma {:induction false} SelectStaysCoupled(ops: seq<Op>)
    requires AllAllowed(ops)
    ensures SelectCoupled(SelectRun(ops)) && SelectRefines(SelectRun(ops), InterestRun(ops))
    decreases |ops|
  {
    if ops != [] {
      var before := ops[..|ops| - 1];
      SelectStaysCoupled(before);
      SelectStepCoupled(SelectRun(before), InterestRun(before), ops[|ops| - 1]);
    }
  }

  // ---------------------------------------------------------------- the two agree

  /** What the kernel reports to each poller. Errors are reported for every descriptor in epoll's
      list, and for every one in select's exception set, whatever its mask. */
  ghost function EpollReads(s: EpollState): set<Fd> {
    set fd | fd in s.kernel && IsReading(s.kernel[fd])
  }

  ghost function EpollWrites(s: EpollState): set<Fd> {
    set fd | fd in s.kernel && IsWriting(s.kernel[fd])
  }

  ghost function SelectReads(s: SelectState): set<Fd> {
    set fd | fd in s.polled && IsReading(EventsOf(s, fd))
  }

  ghost function SelectWrites(s: SelectState): set<Fd> {
    set fd | fd in s.polled && IsWriting(EventsOf(s, fd))
  }

  /** Watched for reading is either of its two bits; for writing, its one. */
  lemma WatchedBits(m: Mask)
    ensures IsReading(m) <==> In in m || Pri in m
    ensures IsWriting(m) <==> Out in m
  {
    assert In in m ==> In in m * READ_EVENT;
    assert Pri in m ==> Pri in m * READ_EVENT;
    assert Out in m ==> Out in m * WRITE_EVENT;
  }

  /** After the same operations epoll and select watch the same descriptors for reading and for
      writing, those of the interest map, and select's vector lists each registered one once. */
  lemma PollersAgree(ops: seq<Op>)
    requires AllAllowed(ops)
    ensures EpollReads(EpollRun(ops)) == Reads(InterestRun(ops)) == SelectReads(SelectRun(ops))
    ensures EpollWrites(EpollRun(ops)) == Writes(InterestRun(ops)) == SelectWrites(SelectRun(ops))
    ensures EpollRun(ops).registry == SelectRun(ops).registry == InterestRun(ops).Keys
    ensures NoDuplicates(SelectRun(ops).polled)
    ensures forall fd :: fd in SelectRun(ops).polled <==> fd in SelectRun(ops).registry
  {
    hide EpollRun, SelectRun, InterestRun;
    EpollNeverRefused(ops);
    SelectStaysCoupled(ops);
    WatchesAgree(EpollRun(ops), SelectRun(ops), InterestRun(ops));
  }

  lemma WatchesAgree(e: EpollState, s: SelectState, a: Interest)
    requires EpollCoupled(e) && EpollRefines(e, a)
    requires SelectCoupled(s) && SelectRefines(s, a)
    ensures EpollReads(e) == Reads(a) == SelectReads(s)
    ensures EpollWrites(e) == Writes(a) == SelectWrites(s)
    ensures e.registry == s.registry == a.Keys
  {
    hide Reads, Writes, EpollReads, EpollWrites, SelectReads, SelectWrites;
    forall fd
      ensures fd in EpollReads(e) <==> fd in Reads(a)
      ensures fd in EpollWrites(e) <==> fd in Writes(a)
      ensures fd in SelectReads(s) <==> fd in Reads(a)
      ensures fd in SelectWrites(s) <==> fd in Writes(a)
      ensures fd in e.registry <==> fd in a.Keys
      ensures fd in s.registry <==> fd in a.Keys
    {
      WatchesAgreeAt(e, s, a, fd);
    }
  }

  lemma WatchesAgreeAt(e: EpollState, s: SelectState, a: Interest, fd: Fd)
    requires CoupledAt(e, fd) && RefinesAt(e, a, fd) && SelectRefinesAt(s, a, fd)
    requires fd in s.polled <==> fd in s.registry
    ensures fd in EpollReads(e) <==> fd in Reads(a)
    ensures fd in EpollWrites(e) <==> fd in Writes(a)
    ensures fd in SelectReads(s) <==> fd in Reads(a)
    ensures fd in SelectWrites(s) <==> fd in Writes(a)
    ensures fd in e.registry <==> fd in a.Keys
    ensures fd in s.registry <==> fd in a.Keys
  {
  }

  /** Where they differ: errors. Select watches every registered descriptor for exceptions; epoll
      reports errors only for those still in the kernel's list, so it misses exactly the registered
      ones whose index is Deleted. */
  lemma ErrorWatchDiffers(ops: seq<Op>, fd: Fd)
    requires AllAllowed(ops)
    ensures fd in SelectRun(ops).polled && fd !in EpollRun(ops).kernel
            <==> ChanOf(EpollRun(ops), fd).index == Deleted
  {
    EpollNeverRefused(ops);
    SelectStaysCoupled(ops);
    assert CoupledAt(EpollRun(ops), fd) && RefinesAt(EpollRun(ops), InterestRun(ops), fd);
    assert SelectRefinesAt(SelectRun(ops), InterestRun(ops), fd);
  }

  /** And a run gets there: a channel that stops reading keeps its place in channels_ only. */
  lemma ErrorWatchDifferenceHappens()
    ensures exists ops, fd :: AllAllowed(ops) && fd in SelectRun(ops).polled && fd !in EpollRun(ops).kernel
  {
    hide EpollRun, SelectRun;
    var start, stop := Update(3, EnableReading), Update(3, DisableReading);
    var ops := [start, stop];
    assert ops[..1] == [start] && [start][..0] == [];
    assert AllAllowed([start][..0]) && AllAllowed(ops[..1]) && AllAllowed(ops);
    StoppedChannel(start, stop);
    ErrorWatchDiffers(ops, 3);
    assert 3 in SelectRun(ops).polled && 3 !in EpollRun(ops).kernel;
  }

  lemma StoppedChannel(start: Op, stop: Op)
    requires start == Update(3, EnableReading) && stop == Update(3, DisableReading)
    ensures ChanOf(EpollRun([start, stop]), 3).index == Deleted
  {
    assert [start, stop][..1] == [start] && [start][..0] == [];
    var s := EpollRun([start]);
    assert s == EpollStep(EpollRun([]), start);
    assert ChanOf(s, 3) == Chan(READ_EVENT, Added);
    assert EpollRun([start, stop]) == EpollStep(s, stop);
    assert READ_EVENT - READ_EVENT == NO_EVENT;
  }

  // ---------------------------------------------------------------- the event buffer

  const INIT_EVENT_LIST_SIZE: nat := 16

  /** Size of events_ after a poll that returned n events. */
  function Grown(size: nat, n: nat): nat {
    if n > 0 && n == size then size * 2 else size
  }

  function Pow2(k: nat): nat {
    if k == 0 then 1 else 2 * Pow2(k - 1)
  }

  /** What a poller goes through: operations on its channels, and polls that returned some events. */
  datatype Event = Operated(op: Op) | Polled(returned: nat)

  function OpsOf(events: seq<Event>): seq<Op> {
    if events == [] then []
    else
      var before, last := OpsOf(events[..|events| - 1]), events[|events| - 1];
      if last.Operated? then before + [last.op] else before
  }

  function Polls(events: seq<Event>): nat {
    if events == [] then 0
    else Polls(events[..|events| - 1]) + if events[|events| - 1].Polled? then 1 else 0
  }

  function BufferSize(events: seq<Event>): nat {
    if events == [] then INIT_EVENT_LIST_SIZE
    else
      var before, last := BufferSize(events[..|events| - 1]), events[|events| - 1];
      if last.Polled? then Grown(before, last.returned) else before
  }

  function After(events: seq<Event>): EpollState {
    EpollRun(OpsOf(events))
  }

  /** The most descriptors that channels_ has held at a time. */
  function MostRegistered(events: seq<Event>): nat {
    if events == [] then 0
    else Max(MostRegistered(events[..|events| - 1]), |After(events).registry|)
  }

  /** epoll_wait returns at most as many events as it was given room for, and as the kernel's list
      has descriptors. */
  predicate CanFollow(past: seq<Event>, e: Event) {
    match e
    case Operated(op) => Allowed(InterestRun(OpsOf(past)), op)
    case Polled(n) => n <= BufferSize(past) && n <= |After(past).kernel.Keys|
  }

  ghost predicate Happens(events: seq<Event>) {
    forall i :: 0 <= i < |events| ==> CanFollow(events[..i], events[i])
  }

  lemma HappensPrefix(events: seq<Event>, n: nat)
    requires Happens(events) && n <= |events|
    ensures Happens(events[..n])
  {
    assert forall i :: 0 <= i < n ==> events[..n][..i] == events[..i];
  }

  lemma {:induction false} OpsAllowed(events: seq<Event>)
    requires Happens(events)
    ensures AllAllowed(OpsOf(events))
    decreases |events|
  {
    if events != [] {
      var n := |events| - 1;
      HappensPrefix(events, n);
      OpsAllowed(events[..n]);
      assert CanFollow(events[..n], events[n]);
      if events[n].Operated? {
        assert OpsOf(events)[..|OpsOf(events)| - 1] == OpsOf(events[..n]);
      }
    }
  }

  lemma {:induction false} SubsetIsSmaller<T>(a: set<T>, b: set<T>)
    requires a <= b
    ensures |a| <= |b|
    decreases a
  {
    if x :| x in a {
      SubsetIsSmaller(a - {x}, b - {x});
    }
  }

  /** No poll returns more events than there are registered descriptors. */
  lemma PollsOnlyRegistered(events: seq<Event>, n: nat)
    requires Happens(events) && CanFollow(events, Polled(n))
    ensures n <= |After(events).registry| <= MostRegistered(events)
  {
    hide EpollRun, BufferSize;
    OpsAllowed(events);
    EpollNeverRefused(OpsOf(events));
    var s := After(events);
    forall fd | fd in s.kernel ensures fd in s.registry {
      assert CoupledAt(s, fd);
    }
    SubsetIsSmaller(s.kernel.Keys, s.registry);
    if events == [] {
      assert OpsOf(events) == [];
      NothingRegistered();
    }
  }

  lemma NothingRegistered()
    ensures EpollRun([]).registry == {}
  {
  }

  lemma GrownDoubles(size: nat, n: nat, doublings: nat) returns (doublings': nat)
    requires size == INIT_EVENT_LIST_SIZE * Pow2(doublings)
    ensures Grown(size, n) == INIT_EVENT_LIST_SIZE * Pow2(doublings')
    ensures doublings <= doublings' <= doublings + 1
  {
    doublings' := if Grown(size, n) == size then doublings else doublings + 1;
  }

  /** However operations and polls interleave, the buffer is 16 times a power of two, with at most one
      doubling a poll, and never more than 16 or twice the most descriptors registered at a time. */
  lemma {:induction false} BufferBounded(events: seq<Event>) returns (doublings: nat)
    requires Happens(events)
    ensures BufferSize(events) == 16 * Pow2(doublings) && doublings <= Polls(events)
    ensures BufferSize(events) <= Max(16, 2 * MostRegistered(events))
    decreases |events|
  {
    hide After, CanFollow, Pow2;
    doublings := 0;
    if events == [] {
      assert Pow2(0) == 1 by { PowZero(); }
    } else {
      var n := |events| - 1;
      HappensPrefix(events, n);
      doublings := BufferBounded(events[..n]);
      if events[n].Polled? {
        assert CanFollow(events[..n], events[n]);
        PollsOnlyRegistered(events[..n], events[n].returned);
        doublings := GrownDoubles(BufferSize(events[..n]), events[n].returned, doublings);
      }
    }
  }

  lemma PowZero()
    ensures Pow2(0) == 1
  {
  }

  /** Every poll finds at least m descriptors ready and returns as many as it has room for. */
  ghost predicate Busy(events: seq<Event>, m: nat) {
    forall i :: 0 <= i < |events| && events[i].Polled? ==> events[i].returned >= Min(m, BufferSize(events[..i]))
  }

  /** One more event, seen from the buffer. */
  lemma BusyStep(events: seq<Event>, m: nat, n: nat)
    requires Happens(events) && Busy(events, m) && n < |events|
    ensures Happens(events[..n]) && Busy(events[..n], m)
    ensures events[n].Polled? ==> Min(m, BufferSize(events[..n])) <= events[n].returned <= BufferSize(events[..n])
  {
    hide BufferSize, After, InterestRun, Allowed;
    HappensPrefix(events, n);
    assert forall i :: 0 <= i < n ==> events[..n][..i] == events[..i];
    assert CanFollow(events[..n], events[n]);
  }

  /** If m descriptors are ready at every poll, k polls make room for min(16 * 2^k, m) of them,
      whatever is registered or removed in between. */
  lemma {:induction false} BufferCatchesUp(events: seq<Event>, m: nat)
    requires Happens(events) && Busy(events, m)
    ensures BufferSize(events) >= Min(16 * Pow2(Polls(events)), m)
    decreases |events|
  {
    hide Pow2, Happens, Busy;
    if events == [] {
      PowZero();
    } else {
      var n := |events| - 1;
      BusyStep(events, m, n);
      BufferCatchesUp(events[..n], m);
      if events[n].Polled? {
        GrownCatchesUp(BufferSize(events[..n]), events[n].returned, m, Polls(events[..n]));
      }
    }
  }

  lemma GrownCatchesUp(size: nat, n: nat, m: nat, k: nat)
    requires Min(16 * Pow2(k), m) <= size
    requires Min(m, size) <= n <= size
    ensures Min(16 * Pow2(k + 1), m) <= Grown(size, n)
  {
  }

  /** So a poll that at least k polls precede, 16 * 2^k being m or more, reports at least m. */
  lemma EventuallyAllReported(events: seq<Event>, m: nat, at: nat)
    requires Happens(events) && Busy(events, m)
    requires at < |events| && events[at].Polled?
    requires 16 * Pow2(Polls(events[..at])) >= m
    ensures events[at].returned >= m
  {
    hide Happens, Busy;
    BusyStep(events, m, at);
    BufferCatchesUp(events[..at], m);
  }
}
