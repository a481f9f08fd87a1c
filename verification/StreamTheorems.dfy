// What the invariant means: safety of the transfer pool, frames that are never
// torn, no lost wake-ups, and the frames that the user sees.
module StreamTheorems {
  import opened Bytes
  import opened Reassembly
  import opened StreamProtocol
  import opened StreamSafety
  import opened StreamInvariant
  import FrameRoundTrip

  /** In every interleaving: no freed transfer is submitted, cancelled or freed
      again, no buffer is overrun, and outbuf and holdbuf are the two buffers. */
  lemma NoFaults(c: Config, s: State)
    requires Reachable(c, s)
    ensures !s.pool.fault && !s.images.fault
    ensures s.images.out != s.images.hold && s.images.gotBytes <= c.params.maxFrame
  {
    ReachableInv(c, s);
  }

  /** What may happen to slot `i` and transfer `i` in one step. */
  predicate SlotAdvances(n: nat, p: Pool, p': Pool, i: nat)
    requires i < n
  {
    && |p.slots| == |p.objects| == |p'.slots| == |p'.objects| == n
    && (p.slots[i].None? ==> p'.slots[i].None?)
    && (p.slots[i].Some? && p'.slots[i].None? ==> p.objects[i] in {Idle, Delivered} && p'.objects[i].Freed?)
    && (p.objects[i].Freed? ==> p'.objects[i].Freed?)
    && (!p.objects[i].Freed? && p'.objects[i].Freed? ==> p.slots[i] == Some(i) && p'.slots[i].None?)
  }

  lemma ControlSlots(c: Config, s: State, x: ControlStep, i: nat)
    requires PoolOk(c.n, s.pool, s.prod.pc, s.ctl.pc) && ControlEnabled(c, s, x) && i < c.n
    ensures SlotAdvances(c.n, s.pool, ControlNext(c, s, x).pool, i)
  {
    hide AllNull;
  }

  lemma EventSlots(c: Config, s: State, x: EventStep, i: nat)
    requires PoolOk(c.n, s.pool, s.prod.pc, s.ctl.pc) && EventEnabled(c, s, x) && i < c.n
    ensures SlotAdvances(c.n, s.pool, EventNext(c, s, x).pool, i)
  {
    if x.Drop? {
      SlotFound(s.pool.slots, s.prod.pc.t);
    }
    hide Plan, Apply, Touch, AllReadable, SlotOf;
  }

  lemma ConsumerLeavesPool(c: Config, s: State, y: ConsumerStep)
    requires ConsumerEnabled(c, s, y)
    ensures ConsumerNext(c, s, y).pool == s.pool
  {
  }

  /** A slot goes to NULL at most once, in the step that frees its transfer, which is
      then neither in flight nor freed; slot and transfer stay so for ever. */
  lemma SlotLifecycle(c: Config, s: State, x: Step, i: nat)
    requires Reachable(c, s) && Enabled(c, s, x) && i < c.n
    ensures SlotAdvances(c.n, s.pool, Next(c, s, x).pool, i)
  {
    ReachableInv(c, s);
    hide LocksOk, WakeupsOk, ImagesOk, HistoryOk, AllNull, DeliveriesOk;
    match x
    case Control(y) => ControlSlots(c, s, y, i);
    case Event(e) => EventSlots(c, s, e, i);
    case Consumer(y) => ConsumerLeavesPool(c, s, y);
    case ControlSpurious =>
  }

  /** When the stopper's wait loop has ended, every slot is NULL, every transfer is
      freed, and no transfer is in flight or in a callback. */
  lemma StoppedIsQuiet(c: Config, s: State)
    requires Reachable(c, s)
    requires s.ctl.pc.Finishing? || s.ctl.pc.Joining? || s.ctl.pc.Stopped?
    ensures AllNull(s.pool) && s.prod.pc.Waiting?
    ensures forall i | 0 <= i < |s.pool.objects| :: s.pool.objects[i].Freed?
  {
    ReachableInv(c, s);
    hide ImagesOk, HistoryOk, LocksOk, DeliveriesOk, Reachable;
    NothingHeld(c.n, s.pool, s.prod.pc, s.ctl.pc);
  }

  lemma HandledIsHeld(n: nat, p: Pool, e: EventPc, pc: ControlPc)
    requires PoolOk(n, p, e, pc)
    ensures e.Waiting? || p.slots[e.t].Some?
  {
  }

  lemma NothingHeld(n: nat, p: Pool, e: EventPc, pc: ControlPc)
    requires PoolOk(n, p, e, pc) && AllNull(p)
    ensures e.Waiting? && forall i | 0 <= i < |p.objects| :: p.objects[i].Freed?
  {
    HandledIsHeld(n, p, e, pc);
  }

  /** In every interleaving, whatever reaches the user is a whole frame, byte for
      byte as published under its number, and the numbers strictly increase. */
  lemma FramesNeverTorn(c: Config, s: State)
    requires Reachable(c, s) && Few(s)
    ensures forall i | 0 <= i < |s.user.delivered| ::
              var d := s.user.delivered[i];
              1 <= d.seqNo <= |s.prod.asm.published|
              && s.prod.asm.published[d.seqNo - 1].seqNo == d.seqNo
              && s.prod.asm.published[d.seqNo - 1].data == d.data
    ensures forall i, j | 0 <= i < j < |s.user.delivered| ::
              s.user.delivered[i].seqNo < s.user.delivered[j].seqNo
  {
    ReachableInv(c, s);
    GenuineNumbers(c.polling, s.user, s.prod);
    hide PoolOk, LocksOk, WakeupsOk, ImagesOk, HistoryOk, AllNull;
  }

  lemma GenuineNumbers(polling: bool, u: User, p: Producer)
    requires DeliveriesOk(polling, u, p.asm.published) && Numbered(Settled(p)) && |p.asm.published| < TWO_TO_32
    ensures forall i | 0 <= i < |u.delivered| ::
              var d := u.delivered[i];
              1 <= d.seqNo <= |p.asm.published| && p.asm.published[d.seqNo - 1].seqNo == d.seqNo
              && p.asm.published[d.seqNo - 1].data == d.data
  {
    assert Settled(p).published == p.asm.published;
    forall i | 0 <= i < |u.delivered|
      ensures Genuine(p.asm.published, u.delivered[i])
    {
    }
  }

  /** The frame that the user's callback looks at is the one it was given, and no
      step of another thread changes it. */
  lemma FrameFixedDuringCallback(c: Config, s: State, x: Step)
    requires Reachable(c, s) && Few(s) && s.user.pc.CbRunning? && Enabled(c, s, x)
    ensures s.user.delivered != [] && Last(s.user.delivered) == Delivery(s.user.frameSeq, s.user.frame)
    ensures var u := Next(c, s, x).user;
            u.frame == s.user.frame && u.frameSeq == s.user.frameSeq && u.delivered == s.user.delivered
  {
    ReachableInv(c, s);
    hide PoolOk, WakeupsOk, ImagesOk, HistoryOk, AllNull, Mem, Plan, Apply, Touch, FreeSlot, SlotOf, AllReadable;
    match x
    case Control(y) => ControlFrame(c, s, y);
    case Event(e) => EventFrame(c, s, e);
    case _ =>
  }

  /** A poller may look at the frame it was given until its next call: between two calls
      of uvc_stream_get_frame it is the last one delivered, and no step of any thread
      changes it. */
  lemma FrameFixedBetweenCalls(c: Config, s: State, x: Step)
    requires Reachable(c, s) && Few(s) && c.polling && s.user.pc.PollReady? && Enabled(c, s, x)
    requires s.user.delivered != []
    ensures Last(s.user.delivered) == Delivery(s.user.frameSeq, s.user.frame)
    ensures var u := Next(c, s, x).user;
            u.frame == s.user.frame && u.frameSeq == s.user.frameSeq && u.delivered == s.user.delivered
  {
    ReachableInv(c, s);
    hide PoolOk, WakeupsOk, ImagesOk, HistoryOk, AllNull, Mem, Plan, Apply, Touch, FreeSlot, SlotOf, AllReadable;
    match x
    case Control(y) => ControlFrame(c, s, y);
    case Event(e) => EventFrame(c, s, e);
    case _ =>
  }

  /** The callback thread never sleeps, unsignalled, while a frame it has not seen
      is presented, nor after the stopper's last broadcast; the stopper never
      sleeps, unsignalled, when all slots are NULL. */
  lemma NoLostWakeup(c: Config, s: State)
    requires Reachable(c, s)
    ensures s.ctl.asleep ==> !AllNull(s.pool)
    ensures !c.polling && s.user.asleep ==> !s.ctl.pc.Joining? && !s.ctl.pc.Stopped?
    ensures !c.polling && s.user.asleep && Few(s) ==> s.user.last == |s.prod.asm.published|
    ensures c.polling && s.user.asleep && Few(s) ==> s.user.last == |s.prod.asm.published|
  {
    ReachableInv(c, s);
    hide PoolOk, LocksOk, AllNull;
    if Few(s) {
      HoldNumber(c, s);
    }
  }

  /** The main result, across threads: if the payloads taken up so far are a prefix
      of a device's transmission of `frames`, then in every interleaving the user has
      seen only frames of the device, under their own positions, in increasing order. */
  lemma UserSeesDeviceFrames(c: Config, s: State,
                             groups: seq<seq<Payload>>, frames: seq<seq<byte>>, first: bool)
    requires Reachable(c, s)
    requires FrameRoundTrip.Sends(c.params, groups, frames, first) && |frames| < TWO_TO_32
    requires s.prod.log <= Flatten(groups)
    ensures forall i | 0 <= i < |s.user.delivered| ::
              var d := s.user.delivered[i];
              1 <= d.seqNo <= |frames| && d.data == frames[d.seqNo - 1]
    ensures forall i, j | 0 <= i < j < |s.user.delivered| ::
              s.user.delivered[i].seqNo < s.user.delivered[j].seqNo
  {
    ReachableInv(c, s);
    PublishedByPrefix(c, s, groups, frames, first);
    FramesNeverTorn(c, s);
    hide Inv, FrameRoundTrip.Sends, Reachable;
    forall i | 0 <= i < |s.user.delivered|
      ensures s.user.delivered[i].seqNo <= |frames|
      ensures s.user.delivered[i].data == frames[s.user.delivered[i].seqNo - 1]
    {
      var k := s.user.delivered[i].seqNo - 1;
      assert Datas(s.prod.asm.published)[k] == frames[k];
    }
  }

  lemma PublishedByPrefix(c: Config, s: State,
                          groups: seq<seq<Payload>>, frames: seq<seq<byte>>, first: bool)
    requires Inv(c, s)
    requires FrameRoundTrip.Sends(c.params, groups, frames, first) && |frames| < TWO_TO_32
    requires s.prod.log <= Flatten(groups)
    ensures Datas(s.prod.asm.published) <= frames
  {
    FrameRoundTrip.PublishedPrefix(c.params, s.prod.log, groups, frames, first);
    RunPublishes(c.params, s.prod.asm, OpsOf(s.prod.pc));
    hide Run, ProcessAll, FrameRoundTrip.Sends, PoolOk, LocksOk, WakeupsOk, ImagesOk, DeliveriesOk;
    var final := ProcessAll(c.params, FRESH, s.prod.log);
    assert s.prod.asm.published <= final.published;
    assert Datas(s.prod.asm.published) <= Datas(final.published);
  }

  lemma {:induction false} RunPublishes(c: Params, s: Asm, ops: seq<Op>)
    ensures s.published <= Run(c, s, ops).published
    decreases |ops|
  {
    if ops != [] {
      ApplyPublishes(c, s, ops[0]);
      RunPublishes(c, Apply(c, s, ops[0]), ops[1..]);
    }
  }

  lemma ApplyPublishes(c: Params, s: Asm, op: Op)
    ensures s.published <= Apply(c, s, op).published
  {
    hide TakeHeader, Readable, Bit;
    if op.OpHeader? && Accepted(c, op.p) && Readable(c, op.p) && HeaderLen(c, op.p) >= 2
       && |s.meta| <= META_CAPACITY {
      HeaderShape(c, s, op.p);
    }
  }
}
