// The invariant of the streaming engine, group by group, and its preservation
// by every step of every thread.
module StreamInvariant {
  import opened Bytes
  import opened Reassembly
  import opened StreamProtocol
  import opened StreamSafety

  // ----- transfers -----

  predicate EventHolds(e: EventPc, t: nat) {
    !e.Waiting? && e.t == t
  }

  /** Index from which transfers have not been submitted yet. */
  function Launched(n: nat, pc: ControlPc): nat {
    match pc
    case Launching(k) => k
    case Abandoning(k) => k
    case _ => n
  }

  /** Slot i is NULL if and only if transfer i has been freed; transfer i is in the
      event thread's hands if and only if libusb has handed it over. */
  ghost predicate PoolOk(n: nat, p: Pool, e: EventPc, pc: ControlPc) {
    && !p.fault
    && |p.slots| == |p.objects| == n
    && Launched(n, pc) <= n
    && (e.Waiting? || e.t < n)
    && forall i | 0 <= i < n ::
         && (p.slots[i] == None <==> p.objects[i] == Freed)
         && (p.slots[i].Some? ==> p.slots[i].value == i)
         && (p.objects[i] == Delivered <==> EventHolds(e, i))
         && ((pc.Launching? || pc.Abandoning?) && i >= Launched(n, pc) ==> p.objects[i] == Idle)
         && (i < Launched(n, pc) ==> p.objects[i] != Idle)
  }

  // ----- the mutex, sleeping and waking -----

  predicate ConsumerHolds(p: ConsumerPc) {
    || p.CbGuard? || p.CbSleeping? || p.CbLeaving? || p.PollTest? || p.PollRetest? || p.Copying?
  }

  predicate ControlHolds(p: ControlPc) {
    p.Cancelling? || p.Scanning? || p.Finishing?
  }

  predicate Callback(p: ConsumerPc) {
    p.CbLocking? || p.CbGuard? || p.CbSleeping? || p.CbLeaving? || p.CbRunning? || p.CbDone?
  }

  predicate Poll(p: ConsumerPc) {
    p.PollReady? || p.PollLocking? || p.PollTest? || p.PollRetest? || p.PollExpired?
  }

  ghost predicate LocksOk(polling: bool, running: bool, mutex: Holder, u: User, ctl: Starter) {
    && (mutex.ByConsumer? <==> ConsumerHolds(u.pc))
    && (mutex.ByControl? <==> ControlHolds(ctl.pc))
    && (polling ==> !Callback(u.pc) && !ctl.pc.Joining?)
    && (!polling ==> !Poll(u.pc) && u.pc != ConsumerWait(true))
    && (u.asleep ==> u.pc.ConsumerWait?)
    && (ctl.asleep ==> ctl.pc.ControlWait?)
    && (running <==> ctl.pc.Launching? || ctl.pc.Abandoning? || ctl.pc.Streaming?)
  }

  /** Nobody sleeps through what it waits for. */
  ghost predicate WakeupsOk(polling: bool, running: bool, u: User, ctl: Starter, allNull: bool, holdSeq: u32) {
    && (ctl.asleep ==> !allNull)
    && (ctl.pc.Finishing? || ctl.pc.Joining? || ctl.pc.Stopped? ==> allNull)
    && (!polling && (u.pc.CbSleeping? || u.asleep) ==> u.last == holdSeq)
    && (polling && u.asleep ==> holdSeq <= u.last)
    && (u.pc.CbLeaving? && running ==> u.last != holdSeq)
    && (!polling && (ctl.pc.Joining? || ctl.pc.Stopped?) ==> !u.pc.CbSleeping? && !u.asleep)
    && (!polling && ctl.pc.Stopped? ==> u.pc.CbDone?)
    && (u.pc.CbDone? ==> !running)
  }

  // ----- buffers -----

  function OpsOf(e: EventPc): seq<Op> {
    if e.Reassembling? then e.ops else []
  }

  /** Between the swap, under the lock, and the reset that follows it, outside. */
  predicate Pending(e: EventPc) {
    OpsOf(e) != [] && OpsOf(e)[0] == OpReset
  }

  function Last<T>(xs: seq<T>): T
    requires xs != []
  {
    xs[|xs| - 1]
  }

  ghost predicate OutOk(capacity: nat, m: Images, got: seq<byte>, pending: bool) {
    && |m.a| == |m.b| == capacity
    && m.out != m.hold
    && !m.fault
    && m.gotBytes <= capacity
    && (!pending ==> m.gotBytes == |got| && Mem(m, m.out)[..m.gotBytes] == got)
  }

  ghost predicate HoldOk(capacity: nat, m: Images, published: seq<Frame>) {
    && m.holdBytes <= capacity
    && |Mem(m, m.hold)| == capacity
    && (if published == [] then m.holdSeq == 0 && m.holdBytes == 0
        else
          var f := Last(published);
          m.holdSeq == f.seqNo && m.holdBytes == |f.data| && Mem(m, m.hold)[..m.holdBytes] == f.data)
  }

  /** A copy under way has the presented bytes so far. */
  ghost predicate CopyOk(m: Images, u: User) {
    u.pc.Copying? ==>
      && u.pc.k <= m.holdBytes == |u.frame| <= |Mem(m, m.hold)|
      && u.frame[..u.pc.k] == Mem(m, m.hold)[..u.pc.k]
      && u.frameSeq == m.holdSeq
  }

  ghost predicate ImagesOk(c: Params, m: Images, p: Producer, u: User) {
    && Sound(c, |p.asm.got|, OpsOf(p.pc))
    && OutOk(c.maxFrame, m, p.asm.got, Pending(p.pc))
    && HoldOk(c.maxFrame, m, p.asm.published)
    && CopyOk(m, u)
  }

  // ----- history -----

  /** The reassembler with a pending reset carried out. */
  function Settled(p: Producer): Asm {
    if Pending(p.pc) then Reset(p.asm) else p.asm
  }

  ghost predicate HistoryOk(c: Params, p: Producer) {
    && Bounded(c, p.asm)
    && AllReadable(c, p.log)
    && (p.pc.Reassembling? ==> AllReadable(c, p.pc.rest))
    && Sound(c, |p.asm.got|, OpsOf(p.pc))
    && Run(c, p.asm, OpsOf(p.pc)) == ProcessAll(c, FRESH, p.log)
    && Numbered(Settled(p))
  }

  /** Every frame handed to the user is the frame published under its number. */
  predicate Genuine(published: seq<Frame>, d: Delivery) {
    1 <= d.seqNo <= |published| && d.data == published[d.seqNo - 1].data
  }

  ghost predicate DeliveriesOk(polling: bool, u: User, published: seq<Frame>) {
    && u.last <= |published|
    && (forall i | 0 <= i < |u.delivered| :: Genuine(published, u.delivered[i]))
    && (forall i, j | 0 <= i < j < |u.delivered| :: u.delivered[i].seqNo < u.delivered[j].seqNo)
    && (u.pc.Copying? && u.delivered != [] ==> Last(u.delivered).seqNo <= u.last)
    && (u.last == 0 ==> u.delivered == [])
    && (u.pc.Copying? ==>
          && u.frameSeq > 0
          && (u.delivered != [] ==> Last(u.delivered).seqNo < u.frameSeq)
          && (if polling then u.last < u.frameSeq else u.last == u.frameSeq))
    && (u.pc.CbRunning? ==> u.delivered != [])
    && (!u.pc.Copying? && u.delivered != [] ==> Last(u.delivered) == Delivery(u.frameSeq, u.frame))
    && (!u.pc.Copying? && u.last > 0 ==> u.delivered != [] && Last(u.delivered).seqNo == u.last)
  }

  /** Sequence numbers have not wrapped around. */
  predicate Few(s: State) {
    |s.prod.asm.published| < TWO_TO_32
  }

  ghost predicate Inv(c: Config, s: State) {
    && PoolOk(c.n, s.pool, s.prod.pc, s.ctl.pc)
    && LocksOk(c.polling, s.running, s.mutex, s.user, s.ctl)
    && WakeupsOk(c.polling, s.running, s.user, s.ctl, AllNull(s.pool), s.images.holdSeq)
    && ImagesOk(c.params, s.images, s.prod, s.user)
    && HistoryOk(c.params, s.prod)
    && (Few(s) ==> DeliveriesOk(c.polling, s.user, s.prod.asm.published))
  }

  // ----- initially -----

  lemma InitInv(c: Config, s: State)
    requires Init(c, s)
    ensures Inv(c, s)
  {
    assert AllReadable(c.params, []);
    ProcessNone(c.params, FRESH);
  }

  // ----- steps of the control thread -----

  lemma ControlPool(c: Config, s: State, x: ControlStep)
    requires PoolOk(c.n, s.pool, s.prod.pc, s.ctl.pc) && ControlEnabled(c, s, x)
    ensures var s' := ControlNext(c, s, x); PoolOk(c.n, s'.pool, s'.prod.pc, s'.ctl.pc)
    ensures var s' := ControlNext(c, s, x); AllNull(s.pool) ==> AllNull(s'.pool)
    ensures !x.AbandonNext? ==> ControlNext(c, s, x).pool.slots == s.pool.slots
  {
  }

  lemma ControlLocks(c: Config, s: State, x: ControlStep)
    requires LocksOk(c.polling, s.running, s.mutex, s.user, s.ctl) && ControlEnabled(c, s, x)
    ensures var s' := ControlNext(c, s, x); LocksOk(c.polling, s'.running, s'.mutex, s'.user, s'.ctl)
  {
    hide AllNull, FreeSlot, SubmitSlot, CancelSlot;
  }

  lemma ControlWakeups(c: Config, s: State, x: ControlStep)
    requires PoolOk(c.n, s.pool, s.prod.pc, s.ctl.pc) && ControlEnabled(c, s, x)
    requires LocksOk(c.polling, s.running, s.mutex, s.user, s.ctl)
    requires WakeupsOk(c.polling, s.running, s.user, s.ctl, AllNull(s.pool), s.images.holdSeq)
    ensures var s' := ControlNext(c, s, x);
            WakeupsOk(c.polling, s'.running, s'.user, s'.ctl, AllNull(s'.pool), s'.images.holdSeq)
  {
    ControlPool(c, s, x);
    hide PoolOk, AllNull, FreeSlot, SubmitSlot, CancelSlot;
  }

  /** The control thread touches neither the buffers nor the history. */
  lemma ControlFrame(c: Config, s: State, x: ControlStep)
    requires ControlEnabled(c, s, x)
    ensures var s' := ControlNext(c, s, x);
            s'.images == s.images && s'.prod == s.prod && s'.user == s.user.(asleep := s'.user.asleep)
  {
    hide AllNull, FreeSlot, SubmitSlot, CancelSlot;
  }

  lemma ControlKeeps(c: Config, s: State, x: ControlStep)
    requires Inv(c, s) && ControlEnabled(c, s, x)
    ensures Inv(c, ControlNext(c, s, x))
  {
    ControlPool(c, s, x);
    ControlLocks(c, s, x);
    ControlWakeups(c, s, x);
    ControlFrame(c, s, x);
    hide ControlNext, ControlEnabled, PoolOk, LocksOk, WakeupsOk, OutOk, HoldOk, HistoryOk, Sound, AllNull;
  }

  // ----- steps of the consumer -----

  lemma ConsumerLocks(c: Config, s: State, x: ConsumerStep)
    requires LocksOk(c.polling, s.running, s.mutex, s.user, s.ctl) && ConsumerEnabled(c, s, x)
    ensures var s' := ConsumerNext(c, s, x); LocksOk(c.polling, s'.running, s'.mutex, s'.user, s'.ctl)
  {
    hide Mem;
  }

  lemma ConsumerWakeups(c: Config, s: State, x: ConsumerStep)
    requires ConsumerEnabled(c, s, x)
    requires LocksOk(c.polling, s.running, s.mutex, s.user, s.ctl)
    requires WakeupsOk(c.polling, s.running, s.user, s.ctl, AllNull(s.pool), s.images.holdSeq)
    ensures var s' := ConsumerNext(c, s, x);
            WakeupsOk(c.polling, s'.running, s'.user, s'.ctl, AllNull(s'.pool), s'.images.holdSeq)
  {
    hide AllNull, Mem;
  }

  /** The consumer only reads the buffers, and inside their bounds. */
  lemma ConsumerFrame(c: Config, s: State, x: ConsumerStep)
    requires CopyOk(s.images, s.user) && ConsumerEnabled(c, s, x)
    ensures var s' := ConsumerNext(c, s, x);
            s'.images == s.images && s'.prod == s.prod && s'.pool == s.pool && s'.ctl == s.ctl
            && s'.running == s.running
  {
  }

  lemma ConsumerCopies(c: Config, s: State, x: ConsumerStep)
    requires CopyOk(s.images, s.user) && ConsumerEnabled(c, s, x)
    requires s.images.holdBytes <= |Mem(s.images, s.images.hold)|
    ensures CopyOk(s.images, ConsumerNext(c, s, x).user)
  {
    hide Mem;
  }

  /** The presented frame's number is how many frames have been published. */
  lemma HoldNumber(c: Config, s: State)
    requires HoldOk(c.params.maxFrame, s.images, s.prod.asm.published) && Numbered(Settled(s.prod)) && Few(s)
    ensures s.images.holdSeq == |s.prod.asm.published|
  {
    hide Mem;
    assert Settled(s.prod).published == s.prod.asm.published;
  }

  /** A finished copy is the frame that was published under its number. */
  lemma CopyDelivers(c: Config, s: State)
    requires ConsumerEnabled(c, s, CopyDone) && CopyOk(s.images, s.user)
    requires HoldOk(c.params.maxFrame, s.images, s.prod.asm.published) && Numbered(Settled(s.prod))
    requires Few(s) && DeliveriesOk(c.polling, s.user, s.prod.asm.published)
    ensures Genuine(s.prod.asm.published, Delivery(s.user.frameSeq, s.user.frame))
  {
    HoldNumber(c, s);
    hide Mem, Settled;
    var f := Last(s.prod.asm.published);
    assert s.user.frame == s.user.frame[..s.user.pc.k] == f.data;
  }

  lemma CopyDoneDeliveries(c: Config, s: State)
    requires ConsumerEnabled(c, s, CopyDone) && CopyOk(s.images, s.user)
    requires HoldOk(c.params.maxFrame, s.images, s.prod.asm.published) && Numbered(Settled(s.prod))
    requires Few(s) && DeliveriesOk(c.polling, s.user, s.prod.asm.published)
    ensures DeliveriesOk(c.polling, ConsumerNext(c, s, CopyDone).user, s.prod.asm.published)
  {
    HoldNumber(c, s);
    CopyDelivers(c, s);
    hide Mem, Settled, HoldOk, Numbered, Genuine, CopyOk;
    DeliveredAfter(s.user.delivered, s.user.frameSeq);
  }

  lemma DeliveredAfter(before: seq<Delivery>, seqNo: u32)
    requires forall i, j | 0 <= i < j < |before| :: before[i].seqNo < before[j].seqNo
    requires before != [] ==> Last(before).seqNo < seqNo
    ensures forall i | 0 <= i < |before| :: before[i].seqNo < seqNo
  {
  }

  /** A copy begins only of a frame that has not been seen. */
  lemma CopyBegins(c: Config, s: State, x: ConsumerStep)
    requires ConsumerEnabled(c, s, x) && (x.CbReadAgain? || x.PollFirst? || x.PollSecond?)
    requires LocksOk(c.polling, s.running, s.mutex, s.user, s.ctl)
    requires WakeupsOk(c.polling, s.running, s.user, s.ctl, AllNull(s.pool), s.images.holdSeq)
    requires s.images.holdSeq == |s.prod.asm.published| && DeliveriesOk(c.polling, s.user, s.prod.asm.published)
    ensures DeliveriesOk(c.polling, ConsumerNext(c, s, x).user, s.prod.asm.published)
  {
    hide Mem, AllNull, Genuine;
  }

  lemma ConsumerDeliveries(c: Config, s: State, x: ConsumerStep)
    requires ConsumerEnabled(c, s, x) && CopyOk(s.images, s.user)
    requires LocksOk(c.polling, s.running, s.mutex, s.user, s.ctl)
    requires WakeupsOk(c.polling, s.running, s.user, s.ctl, AllNull(s.pool), s.images.holdSeq)
    requires HoldOk(c.params.maxFrame, s.images, s.prod.asm.published) && Numbered(Settled(s.prod))
    requires Few(s) && DeliveriesOk(c.polling, s.user, s.prod.asm.published)
    ensures DeliveriesOk(c.polling, ConsumerNext(c, s, x).user, s.prod.asm.published)
  {
    if x.CopyDone? {
      CopyDoneDeliveries(c, s);
    } else {
      HoldNumber(c, s);
      if x.CbReadAgain? || x.PollFirst? || x.PollSecond? {
        CopyBegins(c, s, x);
      } else {
        hide Mem, Settled, HoldOk, AllNull, Numbered, Genuine, WakeupsOk;
      }
    }
  }

  lemma ConsumerKeeps(c: Config, s: State, x: ConsumerStep)
    requires Inv(c, s) && ConsumerEnabled(c, s, x)
    ensures Inv(c, ConsumerNext(c, s, x))
  {
    ConsumerLocks(c, s, x);
    ConsumerWakeups(c, s, x);
    ConsumerFrame(c, s, x);
    ConsumerCopies(c, s, x);
    if Few(s) {
      ConsumerDeliveries(c, s, x);
    }
    hide ConsumerNext, ConsumerEnabled, PoolOk, LocksOk, WakeupsOk, OutOk, HoldOk, CopyOk, AllNull,
         Sound, Numbered, Settled, DeliveriesOk;
  }

  // ----- steps of the event thread -----

  lemma SlotFound(slots: seq<Option<nat>>, t: nat)
    requires t < |slots| && slots[t] == Some(t)
    requires forall i | 0 <= i < |slots| && slots[i].Some? :: slots[i].value == i
    ensures SlotOf(slots, t) == t
  {
    var i := SlotOf(slots, t);
  }

  lemma DropPool(c: Config, s: State)
    requires PoolOk(c.n, s.pool, s.prod.pc, s.ctl.pc) && EventEnabled(c, s, Drop)
    ensures var s' := EventNext(c, s, Drop); PoolOk(c.n, s'.pool, s'.prod.pc, s'.ctl.pc)
    ensures AllNull(s.pool) ==> AllNull(EventNext(c, s, Drop).pool)
  {
    SlotFound(s.pool.slots, s.prod.pc.t);
    hide SlotOf;
  }

  lemma EventPool(c: Config, s: State, x: EventStep)
    requires PoolOk(c.n, s.pool, s.prod.pc, s.ctl.pc) && EventEnabled(c, s, x)
    ensures var s' := EventNext(c, s, x); PoolOk(c.n, s'.pool, s'.prod.pc, s'.ctl.pc)
    ensures !x.Drop? ==> EventNext(c, s, x).pool.slots == s.pool.slots
    ensures AllNull(s.pool) ==> AllNull(EventNext(c, s, x).pool)
  {
    if x.Drop? {
      DropPool(c, s);
    } else {
      hide Plan, Apply, Touch, SlotOf, FreeSlot, AllReadable;
    }
  }

  lemma EventLocks(c: Config, s: State, x: EventStep)
    requires LocksOk(c.polling, s.running, s.mutex, s.user, s.ctl) && EventEnabled(c, s, x)
    ensures var s' := EventNext(c, s, x); LocksOk(c.polling, s'.running, s'.mutex, s'.user, s'.ctl)
  {
    hide Plan, Apply, Touch, SlotOf, FreeSlot, Resubmit, AllReadable;
  }

  lemma EventWakeups(c: Config, s: State, x: EventStep)
    requires EventEnabled(c, s, x) && PoolOk(c.n, s.pool, s.prod.pc, s.ctl.pc)
    requires LocksOk(c.polling, s.running, s.mutex, s.user, s.ctl)
    requires WakeupsOk(c.polling, s.running, s.user, s.ctl, AllNull(s.pool), s.images.holdSeq)
    ensures var s' := EventNext(c, s, x);
            WakeupsOk(c.polling, s'.running, s'.user, s'.ctl, AllNull(s'.pool), s'.images.holdSeq)
  {
    EventPool(c, s, x);
    hide Plan, Apply, SlotOf, FreeSlot, Resubmit, AllReadable, PoolOk, Mem, AllNull;
  }

  /** The event thread only wakes the others. */
  lemma EventFrame(c: Config, s: State, x: EventStep)
    requires EventEnabled(c, s, x)
    ensures var s' := EventNext(c, s, x);
            s'.user == s.user.(asleep := s'.user.asleep) && s'.running == s.running
    ensures !x.DoOp? ==> EventNext(c, s, x).images == s.images && EventNext(c, s, x).prod.asm == s.prod.asm
  {
    hide Plan, Apply, Touch, SlotOf, FreeSlot, Resubmit, AllReadable;
  }

  lemma EventHistory(c: Config, s: State, x: EventStep)
    requires HistoryOk(c.params, s.prod) && EventEnabled(c, s, x)
    ensures HistoryOk(c.params, EventNext(c, s, x).prod)
  {
    if x.DoOp? {
      OpHistory(c, s);
    } else if x.NextPayload? {
      PayloadHistory(c, s);
    } else {
      hide Plan, Apply, Touch, SlotOf, FreeSlot, Resubmit, Sound, Run, AllReadable, ProcessAll, Numbered, Reset;
      assert AllReadable(c.params, []) by { EmptyReadable(c.params); }
      assert s.prod.pc == s.prod.pc;
    }
  }

  lemma EmptyReadable(c: Params)
    ensures AllReadable(c, [])
  {
  }

  lemma PayloadHistory(c: Config, s: State)
    requires HistoryOk(c.params, s.prod) && EventEnabled(c, s, NextPayload)
    ensures HistoryOk(c.params, EventNext(c, s, NextPayload).prod)
  {
    var p := s.prod.pc.rest[0];
    PlanRuns(c.params, s.prod.asm, p);
    OneMore(c.params, s.prod.log, p);
    assert AllReadable(c.params, s.prod.pc.rest[1..]);
    hide Plan, Apply, Sound, AllReadable, ProcessAll, Numbered, Reset, Process;
  }

  lemma OneMore(c: Params, log: seq<Payload>, p: Payload)
    requires AllReadable(c, log) && Readable(c, p)
    ensures AllReadable(c, log + [p])
    ensures ProcessAll(c, FRESH, log + [p]) == Process(c, ProcessAll(c, FRESH, log), p)
  {
    var s := ProcessAll(c, FRESH, log);
    ProcessAllAppend(c, FRESH, log, [p]);
    ProcessAllCons(c, s, [p]);
    ProcessBounded(c, s, p);
    ProcessNone(c, Process(c, s, p));
  }

  lemma OpHistory(c: Config, s: State)
    requires HistoryOk(c.params, s.prod) && EventEnabled(c, s, DoOp)
    ensures HistoryOk(c.params, EventNext(c, s, DoOp).prod)
  {
    var ops := s.prod.pc.ops;
    OpSettles(c.params, s.prod.asm, ops);
    assert Run(c.params, s.prod.asm, ops) == Run(c.params, Apply(c.params, s.prod.asm, ops[0]), ops[1..]);
    hide Apply, Sound, AllReadable, ProcessAll, Numbered, Reset, Run, Touch, Bounded;
  }

  lemma OpSettles(c: Params, s: Asm, ops: seq<Op>)
    requires ops != [] && Bounded(c, s) && Sound(c, |s.got|, ops)
    requires Numbered(if ops[0] == OpReset then Reset(s) else s)
    ensures var s' := Apply(c, s, ops[0]);
            && Bounded(c, s') && Sound(c, |s'.got|, ops[1..])
            && Numbered(if ops[1..] != [] && ops[1] == OpReset then Reset(s') else s')
  {
    match ops[0]
    case OpHeader(p) =>
      hide TakeHeader, Readable, Bit;
      if Accepted(c, p) && Readable(c, p) && HeaderLen(c, p) >= 2 {
        HeaderShape(c, s, p);
      }
    case OpByte(b) =>
    case OpPublish => NumberedSwap(s);
    case OpReset =>
  }

  /** The working buffer after one micro-operation. */
  lemma TouchOut(c: Params, m: Images, s: Asm, ops: seq<Op>)
    requires ops != [] && Sound(c, |s.got|, ops)
    requires OutOk(c.maxFrame, m, s.got, ops[0] == OpReset)
    requires |Mem(m, m.hold)| == c.maxFrame
    ensures OutOk(c.maxFrame, Touch(m, ops[0], s.seqNo), Apply(c, s, ops[0]).got,
                  ops[1..] != [] && ops[1] == OpReset)
  {
    match ops[0]
    case OpHeader(p) =>
      hide TakeHeader, Readable, Bit;
      if Accepted(c, p) && Readable(c, p) && HeaderLen(c, p) >= 2 && |s.meta| <= META_CAPACITY {
        HeaderShape(c, s, p);
      }
    case OpByte(b) =>
      var m', n := Touch(m, ops[0], s.seqNo), m.gotBytes;
      assert Mem(m', m'.out) == Mem(m, m.out)[n := b];
      assert Mem(m', m'.out)[..n + 1] == Mem(m, m.out)[..n] + [b];
    case OpPublish =>
    case OpReset =>
  }

  /** The presented buffer changes only when a frame is published. */
  lemma TouchHold(c: Params, m: Images, s: Asm, ops: seq<Op>)
    requires ops != [] && Sound(c, |s.got|, ops)
    requires OutOk(c.maxFrame, m, s.got, ops[0] == OpReset)
    requires HoldOk(c.maxFrame, m, s.published)
    ensures var m' := Touch(m, ops[0], s.seqNo);
            && HoldOk(c.maxFrame, m', Apply(c, s, ops[0]).published)
            && (!ops[0].OpPublish? ==>
                  m'.holdSeq == m.holdSeq && m'.holdBytes == m.holdBytes && Mem(m', m'.hold) == Mem(m, m.hold))
  {
    match ops[0]
    case OpHeader(p) =>
      hide TakeHeader, Readable, Bit;
      if Accepted(c, p) && Readable(c, p) && HeaderLen(c, p) >= 2 && |s.meta| <= META_CAPACITY {
        HeaderShape(c, s, p);
      }
    case OpByte(b) =>
    case OpPublish =>
      assert Last(Apply(c, s, OpPublish).published) == Frame(s.seqNo, s.pts, s.scr, s.got, s.meta);
    case OpReset =>
  }

  lemma OpImages(c: Config, s: State)
    requires EventEnabled(c, s, DoOp) && HistoryOk(c.params, s.prod)
    requires LocksOk(c.polling, s.running, s.mutex, s.user, s.ctl)
    requires ImagesOk(c.params, s.images, s.prod, s.user)
    ensures var s' := EventNext(c, s, DoOp); ImagesOk(c.params, s'.images, s'.prod, s'.user)
  {
    TouchOut(c.params, s.images, s.prod.asm, s.prod.pc.ops);
    TouchHold(c.params, s.images, s.prod.asm, s.prod.pc.ops);
    OpSettles(c.params, s.prod.asm, s.prod.pc.ops);
    hide Touch, Apply, Sound, OutOk, HoldOk, Mem, Numbered, Bounded, Reset, Run, ProcessAll, AllReadable;
  }

  lemma EventImages(c: Config, s: State, x: EventStep)
    requires EventEnabled(c, s, x) && HistoryOk(c.params, s.prod)
    requires LocksOk(c.polling, s.running, s.mutex, s.user, s.ctl)
    requires ImagesOk(c.params, s.images, s.prod, s.user)
    ensures var s' := EventNext(c, s, x); ImagesOk(c.params, s'.images, s'.prod, s'.user)
  {
    if x.DoOp? {
      OpImages(c, s);
    } else {
      if x.NextPayload? {
        PlanRuns(c.params, s.prod.asm, s.prod.pc.rest[0]);
      }
      hide Plan, Apply, Touch, SlotOf, FreeSlot, Resubmit, AllReadable, OutOk, HoldOk, Mem, Numbered, Run, ProcessAll;
    }
  }

  lemma EventDeliveries(c: Config, s: State, x: EventStep)
    requires EventEnabled(c, s, x) && DeliveriesOk(c.polling, s.user, s.prod.asm.published)
    ensures var s' := EventNext(c, s, x); DeliveriesOk(c.polling, s'.user, s'.prod.asm.published)
    ensures s.prod.asm.published <= EventNext(c, s, x).prod.asm.published
  {
    EventFrame(c, s, x);
    EventPublishes(c, s, x);
    var s' := EventNext(c, s, x);
    hide EventNext, EventEnabled;
    forall i | 0 <= i < |s.user.delivered|
      ensures Genuine(s'.prod.asm.published, s.user.delivered[i])
    {
      assert Genuine(s.prod.asm.published, s.user.delivered[i]);
    }
  }

  /** Frames are only ever added. */
  lemma EventPublishes(c: Config, s: State, x: EventStep)
    requires EventEnabled(c, s, x)
    ensures s.prod.asm.published <= EventNext(c, s, x).prod.asm.published
  {
    hide Plan, Touch, SlotOf, FreeSlot, Resubmit, AllReadable, Readable, Bit, TakeHeader;
    if x.DoOp? && s.prod.pc.ops[0].OpHeader? {
      var p := s.prod.pc.ops[0].p;
      if Accepted(c.params, p) && Readable(c.params, p) && HeaderLen(c.params, p) >= 2
         && |s.prod.asm.meta| <= META_CAPACITY {
        HeaderShape(c.params, s.prod.asm, p);
      }
    }
  }

  lemma EventKeeps(c: Config, s: State, x: EventStep)
    requires Inv(c, s) && EventEnabled(c, s, x)
    ensures Inv(c, EventNext(c, s, x))
  {
    EventPool(c, s, x);
    EventLocks(c, s, x);
    EventWakeups(c, s, x);
    EventImages(c, s, x);
    EventHistory(c, s, x);
    EventPublishes(c, s, x);
    if Few(s) {
      EventDeliveries(c, s, x);
    }
    hide EventNext, EventEnabled, PoolOk, LocksOk, WakeupsOk, ImagesOk, HistoryOk, AllNull, DeliveriesOk;
  }

  // ----- every step, every run -----

  /** The invariant is kept by every step of every thread. */
  lemma StepKeeps(c: Config, s: State, x: Step)
    requires Inv(c, s) && Enabled(c, s, x)
    ensures Inv(c, Next(c, s, x))
  {
    match x
    case Control(y) => ControlKeeps(c, s, y);
    case Event(y) => EventKeeps(c, s, y);
    case Consumer(y) => ConsumerKeeps(c, s, y);
    case ControlSpurious => hide PoolOk, ImagesOk, HistoryOk, AllNull, DeliveriesOk;
  }

  lemma {:induction false} ReachesInv(c: Config, xs: seq<Step>, s: State)
    requires Reaches(c, xs, s)
    ensures Inv(c, s)
    decreases |xs|
  {
    if xs == [] {
      InitInv(c, s);
    } else {
      var k := |xs| - 1;
      var s0 :| Reaches(c, xs[..k], s0) && Enabled(c, s0, xs[k]) && s == Next(c, s0, xs[k]);
      ReachesInv(c, xs[..k], s0);
      StepKeeps(c, s0, xs[k]);
    }
  }

  lemma ReachableInv(c: Config, s: State)
    requires Reachable(c, s)
    ensures Inv(c, s)
  {
    var xs :| Reaches(c, xs, s);
    ReachesInv(c, xs, s);
  }
}
