// What the streaming engine does, beside doing no harm: every payload that libusb
// hands over is processed, a presented frame reaches the user, and transfers go
// round while the stream runs.
module StreamDelivery {
  import opened Bytes
  import opened Reassembly
  import opened StreamProtocol
  import opened StreamSafety
  import opened StreamInvariant
  import opened StreamTheorems
  import FrameRoundTrip

  // ----- from libusb to the presented buffer -----

  /** The payloads that libusb has handed over in a run, in order. */
  function Handed(xs: seq<Step>): seq<Payload> {
    if xs == [] then [] else
      var k := |xs| - 1;
      Handed(xs[..k]) + HandedBy(xs[k])
  }

  function NotTakenUp(e: EventPc): seq<Payload> {
    if e.Reassembling? then e.rest else []
  }

  function HandedBy(x: Step): seq<Payload> {
    match x
    case Event(Deliver(t, Completed(ps))) => ps
    case _ => []
  }

  lemma EventTakes(c: Config, s: State, e: EventStep)
    requires EventEnabled(c, s, e)
    ensures var p := EventNext(c, s, e).prod;
            p.log + NotTakenUp(p.pc) == s.prod.log + NotTakenUp(s.prod.pc) + HandedBy(Event(e))
  {
    hide Plan, Apply, Touch, SlotOf, FreeSlot, Resubmit, AllReadable, Readable, Bounded;
    if e.NextPayload? {
      var rest := s.prod.pc.rest;
      assert s.prod.log + rest == (s.prod.log + [rest[0]]) + rest[1..];
    }
  }

  lemma ConsumerLeavesProducer(c: Config, s: State, y: ConsumerStep)
    requires ConsumerEnabled(c, s, y)
    ensures ConsumerNext(c, s, y).prod == s.prod
  {
    hide Mem;
  }

  lemma StepTakes(c: Config, s: State, x: Step)
    requires Enabled(c, s, x)
    ensures var p := Next(c, s, x).prod;
            p.log + NotTakenUp(p.pc) == s.prod.log + NotTakenUp(s.prod.pc) + HandedBy(x)
  {
    hide EventNext, EventEnabled, ControlNext, ControlEnabled, ConsumerNext, ConsumerEnabled;
    match x
    case Event(e) => EventTakes(c, s, e);
    case Control(y) => ControlFrame(c, s, y);
    case Consumer(y) => ConsumerLeavesProducer(c, s, y);
    case _ =>
  }

  /** No payload is lost on the way to the reassembler, whatever the interleaving. */
  lemma {:induction false} AllTakenUp(c: Config, xs: seq<Step>, s: State)
    requires Reaches(c, xs, s)
    ensures Handed(xs) == s.prod.log + NotTakenUp(s.prod.pc)
    decreases |xs|
  {
    hide Next, Enabled, HandedBy;
    if xs != [] {
      var k := |xs| - 1;
      var s0 :| Reaches(c, xs[..k], s0) && Enabled(c, s0, xs[k]) && s == Next(c, s0, xs[k]);
      hide Reaches;
      AllTakenUp(c, xs[..k], s0);
      StepTakes(c, s0, xs[k]);
    }
  }

  /** Whenever the event thread is between two callbacks, what has been published, and
      what is held of the open frame, is what processing all payloads handed over yields. */
  lemma AllProcessed(c: Config, xs: seq<Step>, s: State)
    requires Reaches(c, xs, s) && s.prod.pc.Waiting?
    ensures AllReadable(c.params, Handed(xs))
    ensures s.prod.asm == ProcessAll(c.params, FRESH, Handed(xs))
  {
    AllTakenUp(c, xs, s);
    ReachesInv(c, xs, s);
    hide Reaches, ProcessAll, AllReadable, PoolOk, LocksOk, WakeupsOk, ImagesOk, DeliveriesOk;
    assert s.prod.log + [] == s.prod.log;
  }

  // ----- from the presented buffer to the user -----

  /** The frame that is presented. */
  function Presented(m: Images): Delivery
    requires m.holdBytes <= |Mem(m, m.hold)|
  {
    Delivery(m.holdSeq, Mem(m, m.hold)[..m.holdBytes])
  }

  predicate HoldFits(m: Images) {
    m.holdBytes <= |Mem(m, m.hold)|
  }

  /** The consumer is bound to hand over the presented frame. */
  predicate Handing(s: State) {
    || s.user.pc.Copying?
    || (s.user.pc.CbLeaving? && s.running)
    || ((s.user.pc.PollTest? || s.user.pc.PollRetest?) && s.user.last < s.images.holdSeq)
  }

  /** The presented frame has been handed over: a callback runs on it, or
      uvc_stream_get_frame returns it. */
  predicate HandedOver(c: Config, s: State, s': State)
    requires HoldFits(s.images)
  {
    && s'.user.delivered == s.user.delivered + [Presented(s.images)]
    && s'.user.pc == (if c.polling then PollReady else CbRunning)
  }

  /** How many steps of the consumer are left until then. */
  function Left(s: State): nat {
    if !s.user.pc.Copying? then s.images.holdBytes + 2
    else if s.user.pc.k <= s.images.holdBytes then s.images.holdBytes - s.user.pc.k + 1 else 0
  }

  lemma ConsumerHands(c: Config, s: State, x: ConsumerStep)
    requires ConsumerEnabled(c, s, x) && CopyOk(s.images, s.user) && HoldFits(s.images) && Handing(s)
    ensures var s' := ConsumerNext(c, s, x);
            || HandedOver(c, s, s')
            || (Handing(s') && Left(s') < Left(s) && s'.user.delivered == s.user.delivered)
  {
    hide Mem;
    if x.CopyDone? {
      assert s.user.frame == s.user.frame[..s.user.pc.k];
    }
  }

  /** No step of the event thread changes what is presented to a consumer in the mutex. */
  lemma EventLeaves(c: Config, s: State, e: EventStep)
    requires Inv(c, s) && s.mutex.ByConsumer? && EventEnabled(c, s, e)
    ensures var m, m' := s.images, EventNext(c, s, e).images;
            && m'.holdSeq == m.holdSeq && m'.holdBytes == m.holdBytes && Mem(m', m'.hold) == Mem(m, m.hold)
  {
    EventFrame(c, s, e);
    if e.DoOp? {
      TouchHold(c.params, s.images, s.prod.asm, s.prod.pc.ops);
    }
    hide PoolOk, LocksOk, WakeupsOk, HistoryOk, OutOk, HoldOk, CopyOk, Touch, Apply, Mem, Plan, SlotOf, FreeSlot;
  }

  /** Whoever takes a step while the consumer is bound to hand over: the presented frame
      stays the same; it has been handed over, or the consumer, if it took the step, is
      nearer to it. Only a stop that comes before the copy has begun can release it. */
  lemma StaysBound(c: Config, s: State, x: Step)
    requires Inv(c, s) && Handing(s) && Enabled(c, s, x)
    ensures HoldFits(s.images)
    ensures var s' := Next(c, s, x);
            && Inv(c, s') && HoldFits(s'.images) && Presented(s'.images) == Presented(s.images)
            && (x.Consumer? ==>
                  HandedOver(c, s, s')
                  || (Handing(s') && Left(s') < Left(s) && s'.user.delivered == s.user.delivered))
            && (!x.Consumer? ==>
                  && s'.user.delivered == s.user.delivered && Left(s') == Left(s)
                  && (Handing(s') || (s'.user.pc.CbLeaving? && !s'.running)))
  {
    StepKeeps(c, s, x);
    assert s.mutex.ByConsumer?;
    match x
    case Consumer(y) =>
      ConsumerHands(c, s, y);
      ConsumerFrame(c, s, y);
      hide ConsumerNext, ConsumerEnabled, Left, Handing, HandedOver, Inv;
    case Event(e) =>
      EventLeaves(c, s, e);
      EventFrame(c, s, e);
      hide EventNext, EventEnabled, Inv;
    case Control(y) =>
      ControlFrame(c, s, y);
      hide ControlNext, ControlEnabled, Inv;
    case ControlSpurious =>
  }

  /** The step of a consumer that is bound to hand over; it is always enabled. */
  function HandStep(s: State): ConsumerStep {
    var junk := seq(s.images.holdBytes, _ => 0);
    match s.user.pc
    case CbLeaving => CbReadAgain(junk)
    case PollTest(_) => PollFirst(junk)
    case PollRetest => PollSecond(junk)
    case Copying(k) => if k < s.images.holdBytes then CopyByte else CopyDone
    case _ => CbReturn
  }

  lemma CanHand(c: Config, s: State)
    requires Handing(s)
    ensures Enabled(c, s, Consumer(HandStep(s)))
  {
  }

  predicate AllConsumer(xs: seq<Step>) {
    forall i | 0 <= i < |xs| :: xs[i].Consumer?
  }

  lemma LeadsOn(c: Config, s: State, x: Step, xs: seq<Step>, s': State)
    requires Enabled(c, s, x) && Leads(c, Next(c, s, x), xs, s')
    ensures Leads(c, s, [x] + xs, s')
  {
    assert ([x] + xs)[1..] == xs;
  }

  lemma LeadsNowhere(c: Config, s: State)
    ensures Leads(c, s, [], s)
  {
  }

  /** A consumer that is bound to hand over does so by steps of its own: from the
      callback thread's unlock while the stream runs, and from either test of
      uvc_stream_get_frame when there is an unseen frame, whatever the timeout. */
  lemma {:induction false} HandsOver(c: Config, s: State) returns (xs: seq<Step>, s': State)
    requires Inv(c, s) && Handing(s)
    ensures Leads(c, s, xs, s') && AllConsumer(xs) && HoldFits(s.images) && HandedOver(c, s, s')
    decreases Left(s)
  {
    var x := Consumer(HandStep(s));
    CanHand(c, s);
    StaysBound(c, s, x);
    var s1 := Next(c, s, x);
    hide Inv, Enabled, Next, Leads, Handing, Left, HandStep, HandedOver;
    LeadsNowhere(c, s1);
    if HandedOver(c, s, s1) {
      LeadsOn(c, s, x, [], s1);
      xs, s' := [x] + [], s1;
    } else {
      var rest;
      rest, s' := HandsOver(c, s1);
      LeadsOn(c, s, x, rest, s');
      xs := [x] + rest;
      SameOver(c, s, s1, s');
    }
  }

  lemma SameOver(c: Config, s: State, s1: State, s': State)
    requires HoldFits(s.images) && HoldFits(s1.images) && Presented(s1.images) == Presented(s.images)
    requires s1.user.delivered == s.user.delivered && HandedOver(c, s1, s')
    ensures HandedOver(c, s, s')
  {
  }

  // ----- catching up -----

  /** The consumer has still to see the frame presented, and the stream runs. */
  predicate Behind(c: Config, s: State) {
    s.running && s.user.last < s.images.holdSeq && !s.user.pc.Copying? && (c.polling ==> !s.user.pc.PollExpired?)
  }

  /** The next step towards the copy. */
  function Approach(s: State, timeout: Timeout): ConsumerStep {
    match s.user.pc
    case CbRunning => CbReturn
    case CbLocking => CbLock
    case CbGuard => CbReadGuard
    case PollReady => PollCall(timeout)
    case PollLocking(_) => PollLock
    case _ => Relock
  }

  function Distance(u: User): nat {
    match u.pc
    case CbRunning => 3
    case PollReady => 2
    case CbLocking => 2
    case ConsumerWait(_) => 2
    case CbGuard => 1
    case PollLocking(_) => 1
    case _ => 0
  }

  lemma Approaches(c: Config, s: State, timeout: Timeout)
    requires LocksOk(c.polling, s.running, s.mutex, s.user, s.ctl) && Behind(c, s)
    requires WakeupsOk(c.polling, s.running, s.user, s.ctl, AllNull(s.pool), s.images.holdSeq)
    ensures var x := Approach(s, timeout);
            Handing(s) ||
            (ConsumerEnabled(c, s, x)
             && var s' := ConsumerNext(c, s, x);
                Behind(c, s') && Distance(s'.user) < Distance(s.user) && s'.images == s.images
                && s'.user.delivered == s.user.delivered)
  {
    hide AllNull, Mem;
  }

  /** Whenever the stream runs and the consumer is behind, it can hand over the presented
      frame by steps of its own: it is not asleep, and the mutex is free or its own. */
  lemma {:induction false} CatchesUp(c: Config, s: State, timeout: Timeout) returns (xs: seq<Step>, s': State)
    requires Inv(c, s) && Behind(c, s)
    ensures Leads(c, s, xs, s') && AllConsumer(xs) && HoldFits(s.images) && HandedOver(c, s, s')
    decreases Distance(s.user)
  {
    Approaches(c, s, timeout);
    if Handing(s) {
      xs, s' := HandsOver(c, s);
    } else {
      var x := Consumer(Approach(s, timeout));
      var s1 := Next(c, s, x);
      StepKeeps(c, s, x);
      hide Inv, Enabled, Next, Leads, Handing, Behind, Approach, Distance, HandedOver;
      var rest;
      rest, s' := CatchesUp(c, s1, timeout);
      LeadsOn(c, s, x, rest, s');
      xs := [x] + rest;
      SameOver(c, s, s1, s');
    }
  }

  /** The callback thread, wherever it is: while the stream runs, a frame that has been
      published and not been seen, and is not being copied, can reach the user's callback. */
  lemma CallbackCatchesUp(c: Config, s: State) returns (xs: seq<Step>, s': State)
    requires Reachable(c, s) && Few(s) && !c.polling && s.running
    requires s.user.last < |s.prod.asm.published|
    ensures Leads(c, s, xs, s') && AllConsumer(xs) && s'.user.pc.CbRunning?
    ensures var n := |s.prod.asm.published|;
            s'.user.delivered == s.user.delivered + [Delivery(n, s.prod.asm.published[n - 1].data)]
  {
    ReachableInv(c, s);
    HoldNumber(c, s);
    PresentedIsLast(c, s);
    assert Behind(c, s);
    hide Inv, Leads, Behind, Presented, Reachable;
    xs, s' := CatchesUp(c, s, Forever);
  }

  /** A poller that calls uvc_stream_get_frame gets the last frame published, if it has
      not seen it, whatever its timeout is. */
  lemma PollerCatchesUp(c: Config, s: State, timeout: Timeout) returns (xs: seq<Step>, s': State)
    requires Reachable(c, s) && Few(s) && c.polling && s.running && s.user.pc.PollReady?
    requires s.user.last < |s.prod.asm.published|
    ensures Leads(c, s, [Consumer(PollCall(timeout))] + xs, s') && AllConsumer(xs) && s'.user.pc.PollReady?
    ensures var n := |s.prod.asm.published|;
            s'.user.delivered == s.user.delivered + [Delivery(n, s.prod.asm.published[n - 1].data)]
  {
    ReachableInv(c, s);
    HoldNumber(c, s);
    PresentedIsLast(c, s);
    var x := Consumer(PollCall(timeout));
    StepKeeps(c, s, x);
    var s1 := Next(c, s, x);
    assert Behind(c, s1);
    hide Inv, Leads, Behind, Presented, Reachable;
    xs, s' := CatchesUp(c, s1, timeout);
    LeadsOn(c, s, x, xs, s');
  }

  lemma PresentedIsLast(c: Config, s: State)
    requires Inv(c, s) && Few(s) && s.prod.asm.published != []
    ensures HoldFits(s.images)
    ensures var n := |s.prod.asm.published|;
            Presented(s.images) == Delivery(n, s.prod.asm.published[n - 1].data)
  {
    HoldNumber(c, s);
  }

  /** No number counts as seen without its frame: outside a copy, the last number seen is
      that of the last frame handed over, and there is one unless no frame has been seen. */
  lemma SeenIsDelivered(c: Config, s: State)
    requires Reachable(c, s) && Few(s) && !s.user.pc.Copying?
    ensures s.user.last == 0 <==> s.user.delivered == []
    ensures s.user.last > 0 ==> Last(s.user.delivered).seqNo == s.user.last
  {
    ReachableInv(c, s);
    hide PoolOk, LocksOk, WakeupsOk, ImagesOk, HistoryOk, AllNull;
  }

  // ----- from the device to the user -----

  /** If what libusb has handed over is a prefix of a transmission of `frames`, the user has
      seen only frames of the device, each under its position, in increasing order. */
  lemma UserSeesSent(c: Config, xs: seq<Step>, s: State,
                     groups: seq<seq<Payload>>, frames: seq<seq<byte>>, first: bool)
    requires Reaches(c, xs, s)
    requires FrameRoundTrip.Sends(c.params, groups, frames, first) && |frames| < TWO_TO_32
    requires Handed(xs) <= Flatten(groups)
    ensures forall i | 0 <= i < |s.user.delivered| ::
              var d := s.user.delivered[i];
              1 <= d.seqNo <= |frames| && d.data == frames[d.seqNo - 1]
    ensures forall i, j | 0 <= i < j < |s.user.delivered| ::
              s.user.delivered[i].seqNo < s.user.delivered[j].seqNo
  {
    AllTakenUp(c, xs, s);
    assert Reachable(c, s);
    hide Reachable, Reaches, FrameRoundTrip.Sends, NotTakenUp;
    UserSeesDeviceFrames(c, s, groups, frames, first);
  }

  /** When the whole transmission has been handed over and worked off, all its frames have
      been published, but for a last one whose end was never told; and while the stream
      runs, a callback thread that is behind can get the last of them to the user. */
  lemma LastFrameArrives(c: Config, xs: seq<Step>, s: State,
                         groups: seq<seq<Payload>>, frames: seq<seq<byte>>, first: bool)
    returns (ys: seq<Step>, s': State)
    requires Reaches(c, xs, s) && s.prod.pc.Waiting? && Handed(xs) == Flatten(groups)
    requires FrameRoundTrip.Sends(c.params, groups, frames, first) && |frames| < TWO_TO_32
    requires !c.polling && s.running && s.user.last < |s.prod.asm.published|
    ensures var n := |s.prod.asm.published|;
            && |frames| - 1 <= n <= |frames|
            && Leads(c, s, ys, s') && AllConsumer(ys) && s'.user.pc.CbRunning?
            && s'.user.delivered == s.user.delivered + [Delivery(n, frames[n - 1])]
  {
    hide *;
    AllProcessed(c, xs, s);
    FrameRoundTrip.RoundTrip(c.params, groups, frames, first);
    Reached(c, xs, s);
    var published := s.prod.asm.published;
    FewIf(s);
    ys, s' := CallbackCatchesUp(c, s);
    DatasAre(published);
    assert Datas(published)[|published| - 1] == frames[|published| - 1];
  }

  lemma Reached(c: Config, xs: seq<Step>, s: State)
    requires Reaches(c, xs, s)
    ensures Reachable(c, s)
  {
  }

  lemma FewIf(s: State)
    ensures |s.prod.asm.published| < TWO_TO_32 ==> Few(s)
  {
  }

  lemma DatasAre(fs: seq<Frame>)
    ensures forall i | 0 <= i < |fs| :: Datas(fs)[i] == fs[i].data
  {
  }

  // ----- transfers go round -----

  /** What makes a callback drop its transfer instead of submitting it again. */
  predicate Drops(s: State, x: Step) {
    match x
    case Event(Deliver(_, how)) => how.Gone?
    case Event(ReadRunning) => !s.running
    case Event(ResubmitFail) => true
    case _ => false
  }

  /** The event thread is about to drop its transfer only after a completion that says
      so, after having read that the stream has been stopped, or if libusb refuses it. */
  lemma DroppedOnlyIf(c: Config, s: State, x: Step)
    requires Enabled(c, s, x) && !s.prod.pc.Dropping?
    ensures Next(c, s, x).prod.pc.Dropping? <==> Drops(s, x)
  {
    hide Plan, Apply, Touch, SlotOf, FreeSlot, Resubmit, AllReadable, AllNull, Mem;
  }

  /** While the stream runs, a transfer whose payloads have been processed is submitted again. */
  lemma GoesRound(c: Config, s: State) returns (s': State)
    requires Reachable(c, s) && s.running && s.prod.pc.Checking?
    ensures Leads(c, s, [Event(ReadRunning), Event(ResubmitOk)], s')
    ensures s'.prod.pc.Waiting? && s'.pool.slots == s.pool.slots && !s'.pool.fault
    ensures s'.pool.objects == s.pool.objects[s.prod.pc.t := InFlight]
  {
    ReachableInv(c, s);
    hide ImagesOk, HistoryOk, DeliveriesOk, Reachable;
    var s1 := Next(c, s, Event(ReadRunning));
    s' := Next(c, s1, Event(ResubmitOk));
    LeadsNowhere(c, s');
    LeadsOn(c, s1, Event(ResubmitOk), [], s');
    LeadsOn(c, s, Event(ReadRunning), [Event(ResubmitOk)], s');
    assert [Event(ResubmitOk)] + [] == [Event(ResubmitOk)];
    assert [Event(ReadRunning)] + [Event(ResubmitOk)] == [Event(ReadRunning), Event(ResubmitOk)];
  }
}
