// The streaming engine of stream.c as a state machine over atomic steps of its
// three threads: the libusb event thread (transfer callbacks, reassembly), the
// consumer (the user callback thread, or one poller), and the control thread
// (start, then stop). A step is one access to shared state outside cb_mutex, or
// a part of a region inside it; the copy of a frame is one step a byte, and so
// is every write to the working buffer, which takes no lock.
module StreamProtocol {
  import opened Bytes
  import opened Reassembly

  // ----- the reassembler as a program of micro-operations -----

  datatype Op = OpHeader(p: Payload) | OpByte(b: byte) | OpPublish | OpReset

  function Reset(s: Asm): Asm {
    s.(seqNo := (s.seqNo + 1) % TWO_TO_32, got := [], meta := [], scr := 0, pts := 0)
  }

  /** What one micro-operation does to the state that the event thread owns. */
  function Apply(c: Params, s: Asm, op: Op): Asm {
    match op
    case OpHeader(p) =>
      if Accepted(c, p) && Readable(c, p) && HeaderLen(c, p) >= 2 && |s.meta| <= META_CAPACITY
      then TakeHeader(c, s, p) else s
    case OpByte(b) => s.(got := s.got + [b])
    case OpPublish => s.(published := s.published + [Frame(s.seqNo, s.pts, s.scr, s.got, s.meta)])
    case OpReset => Reset(s)
  }

  function Run(c: Params, s: Asm, ops: seq<Op>): Asm
    decreases |ops|
  {
    if ops == [] then s else Run(c, Apply(c, s, ops[0]), ops[1..])
  }

  const SWAP_OPS: seq<Op> := [OpPublish, OpReset]

  function ByteOps(data: seq<byte>): (ops: seq<Op>)
    ensures |ops| == |data|
  {
    seq(|data|, i requires 0 <= i < |data| => OpByte(data[i]))
  }

  /** The operations that append image bytes when `len` are already held. */
  function ImageOps(c: Params, len: nat, data: seq<byte>, eof: bool): seq<Op>
    requires len <= c.maxFrame
  {
    if data == [] then [] else
      var fit := Clip(data, c.maxFrame - len);
      ByteOps(fit) + if eof || len + |fit| == c.maxFrame then SWAP_OPS else []
  }

  /** The operations of _uvc_process_payload on `p`. */
  function Plan(c: Params, s: Asm, p: Payload): seq<Op>
    requires Bounded(c, s) && Readable(c, p)
  {
    if !Accepted(c, p) then []
    else if HeaderLen(c, p) < 2 then ImageOps(c, |s.got|, ImageBytes(c, p), false)
    else
      (if Flushes(c, s, p) then SWAP_OPS else []) + [OpHeader(p)]
      + ImageOps(c, if Flushes(c, s, p) then 0 else |s.got|, ImageBytes(c, p), Eof(p[1]))
  }

  // ----- the shared state -----

  /** A libusb transfer: allocated, submitted, handed to the callback, or freed. */
  datatype Transfer = Idle | InFlight | Delivered | Freed

  datatype Holder = Free | ByConsumer | ByControl

  datatype EventPc =
    | Waiting
    | Reassembling(t: nat, rest: seq<Payload>, ops: seq<Op>)
    | Checking(t: nat)       // about to read `running`
    | Submitting(t: nat)     // has read running == 1
    | Dropping(t: nat)       // about to lock and free the transfer

  datatype ControlPc =
    | Launching(k: nat)      // submitting transfers[k]
    | Abandoning(k: nat)     // a submission failed: freeing from transfers[k] on
    | Streaming
    | StopLocking            // running has been cleared
    | Cancelling(k: nat)
    | Scanning
    | ControlWait
    | Finishing
    | Joining
    | Stopped

  datatype Timeout = Forever | Timed | Immediate

  datatype ConsumerPc =
    // the callback thread
    | CbLocking | CbGuard | CbSleeping | CbLeaving | CbRunning | CbDone
    // uvc_stream_get_frame
    | PollReady | PollLocking(timeout: Timeout) | PollTest(timeout: Timeout) | PollRetest | PollExpired
    // both
    | ConsumerWait(timed: bool) | Copying(k: nat)

  datatype Delivery = Delivery(seqNo: u32, data: seq<byte>)

  datatype Ptr = A | B

  /** `polling`: the stream was started without a callback. `n`: LIBUVC_NUM_TRANSFER_BUFS. */
  datatype Config = Config(params: Params, n: nat, polling: bool)

  /** strmh->transfers[], which says the transfer each slot points to, and the
      transfers themselves. `fault`: a freed transfer has been used, or one freed
      or submitted twice. */
  datatype Pool = Pool(slots: seq<Option<nat>>, objects: seq<Transfer>, fault: bool)

  /** The event thread and the reassembler it owns. `asm.published` and `log`, the
      payloads taken up, are history. */
  datatype Producer = Producer(pc: EventPc, asm: Asm, log: seq<Payload>)

  /** The two image buffers; outbuf and holdbuf point to them. `fault`: an access
      outside a buffer. */
  datatype Images = Images(
    a: seq<byte>, b: seq<byte>, out: Ptr, hold: Ptr,
    gotBytes: nat, holdBytes: nat, holdSeq: u32, fault: bool)

  /** The callback thread or the poller. `asleep`: blocked in pthread_cond_wait and
      not signalled. `last` is last_seq or last_polled_seq; `frame` and `frameSeq` are
      strmh->frame; `delivered` is history. */
  datatype User = User(
    pc: ConsumerPc, asleep: bool, last: u32,
    frame: seq<byte>, frameSeq: u32, delivered: seq<Delivery>)

  /** The thread that starts and stops the stream. */
  datatype Starter = Starter(pc: ControlPc, asleep: bool)

  datatype State = State(
    running: bool, mutex: Holder,
    pool: Pool, prod: Producer, images: Images, user: User, ctl: Starter)

  function Mem(m: Images, p: Ptr): seq<byte> {
    if p.A? then m.a else m.b
  }

  /** pthread_cond_broadcast(&cb_cond) */
  function Broadcast(s: State): State {
    s.(user := s.user.(asleep := false), ctl := s.ctl.(asleep := false))
  }

  /** uvc_stream_start has allocated the transfers and, if asked, created the thread. */
  ghost predicate Init(c: Config, s: State) {
    && s.running && s.mutex.Free?
    && s.pool == Pool(seq(c.n, i requires 0 <= i < c.n => Some(i)),
                      seq(c.n, i requires 0 <= i < c.n => Idle), false)
    && s.prod == Producer(Waiting, FRESH, [])
    && |s.images.a| == |s.images.b| == c.params.maxFrame && s.images.out != s.images.hold
    && s.images.gotBytes == s.images.holdBytes == 0 && s.images.holdSeq == 0 && !s.images.fault
    && s.user.pc == (if c.polling then PollReady else CbLocking) && !s.user.asleep
    && s.user.last == 0 && s.user.delivered == []
    && s.ctl == Starter(Launching(0), false)
  }

  predicate AllNull(p: Pool) {
    forall i | 0 <= i < |p.slots| :: p.slots[i] == None
  }

  /** The slot that points to transfer `t`, or |slots| if there is none. */
  function SlotOf(slots: seq<Option<nat>>, t: nat): (i: nat)
    ensures i <= |slots|
    ensures i < |slots| ==> slots[i] == Some(t)
    ensures forall j | 0 <= j < i :: slots[j] != Some(t)
  {
    if slots == [] || slots[0] == Some(t) then 0 else 1 + SlotOf(slots[1..], t)
  }

  /** The transfer that slot `i` points to is one of `allowed`. */
  predicate SlotIs(p: Pool, i: nat, allowed: set<Transfer>) {
    && i < |p.slots| && p.slots[i].Some? && p.slots[i].value < |p.objects|
    && p.objects[p.slots[i].value] in allowed
  }

  /** Free the transfer that slot `i` points to, and clear the slot. */
  function FreeSlot(p: Pool, i: nat): Pool {
    if SlotIs(p, i, {Idle, Delivered})
    then Pool(p.slots[i := None], p.objects[p.slots[i].value := Freed], p.fault)
    else p.(fault := true)
  }

  /** Submit the transfer that slot `i` points to. */
  function SubmitSlot(p: Pool, i: nat): Pool {
    if SlotIs(p, i, {Idle})
    then p.(objects := p.objects[p.slots[i].value := InFlight])
    else p.(fault := true)
  }

  /** libusb_cancel_transfer asks libusb to complete a transfer that is in flight; it
      must not be given a freed one. */
  function CancelSlot(p: Pool, i: nat): Pool {
    if i < |p.slots| && (p.slots[i].None? || SlotIs(p, i, {Idle, InFlight, Delivered}))
    then p else p.(fault := true)
  }

  /** Submit transfer `t` again, from its callback. */
  function Resubmit(p: Pool, t: nat): Pool {
    if t < |p.objects| && p.objects[t].Delivered?
    then p.(objects := p.objects[t := InFlight])
    else p.(fault := true)
  }

  // ----- steps of the control thread -----

  datatype ControlStep =
    | SubmitOk | SubmitFail | AbandonNext | LaunchDone
    | ClearRunning | StopLock | CancelNext | CancelDone | Scan | StopRelock | Finish | Join

  predicate ControlEnabled(c: Config, s: State, x: ControlStep) {
    var pc := s.ctl.pc;
    match x
    case SubmitOk => pc.Launching? && pc.k < c.n
    case SubmitFail => pc.Launching? && pc.k < c.n
    case AbandonNext => pc.Abandoning? && pc.k < c.n
    case LaunchDone => (pc.Launching? || pc.Abandoning?) && pc.k >= c.n
    case ClearRunning => pc.Streaming?
    case StopLock => pc.StopLocking? && s.mutex.Free?
    case CancelNext => pc.Cancelling? && pc.k < c.n
    case CancelDone => pc.Cancelling? && pc.k >= c.n
    case Scan => pc.Scanning?
    case StopRelock => pc.ControlWait? && !s.ctl.asleep && s.mutex.Free?
    case Finish => pc.Finishing?
    case Join => pc.Joining? && s.user.pc.CbDone?
  }

  function Go(s: State, pc: ControlPc): State {
    s.(ctl := s.ctl.(pc := pc))
  }

  function ControlNext(c: Config, s: State, x: ControlStep): State
    requires ControlEnabled(c, s, x)
  {
    match x
    case SubmitOk => Go(s.(pool := SubmitSlot(s.pool, s.ctl.pc.k)), Launching(s.ctl.pc.k + 1))
    case SubmitFail => Go(s, Abandoning(s.ctl.pc.k))
    case AbandonNext => Go(s.(pool := FreeSlot(s.pool, s.ctl.pc.k)), Abandoning(s.ctl.pc.k + 1))
    case LaunchDone => Go(s, Streaming)
    case ClearRunning => Go(s.(running := false), StopLocking)
    case StopLock => Go(s.(mutex := ByControl), Cancelling(0))
    case CancelNext => Go(s.(pool := CancelSlot(s.pool, s.ctl.pc.k)), Cancelling(s.ctl.pc.k + 1))
    case CancelDone => Go(s, Scanning)
    case Scan =>
      if AllNull(s.pool) then Go(s, Finishing)
      else s.(ctl := Starter(ControlWait, true), mutex := Free)
    case StopRelock => Go(s.(mutex := ByControl), Scanning)
    case Finish => Go(Broadcast(s).(mutex := Free), if c.polling then Stopped else Joining)
    case Join => Go(s, Stopped)
  }

  // ----- steps of the event thread -----

  /** How a transfer completes: with payloads; cancelled, failed or unplugged; or to be retried. */
  datatype Completion = Completed(payloads: seq<Payload>) | Gone | Retry

  datatype EventStep =
    | Deliver(t: nat, how: Completion) | NextPayload | DoOp | PayloadsDone
    | ReadRunning | ResubmitOk | ResubmitFail | Drop

  predicate EventEnabled(c: Config, s: State, x: EventStep) {
    var pc := s.prod.pc;
    match x
    case Deliver(t, how) =>
      && pc.Waiting? && t < |s.pool.objects| && s.pool.objects[t].InFlight?
      && (how.Completed? ==> AllReadable(c.params, how.payloads))
    case NextPayload => pc.Reassembling? && pc.ops == [] && pc.rest != []
                        && Bounded(c.params, s.prod.asm) && Readable(c.params, pc.rest[0])
    case DoOp => pc.Reassembling? && pc.ops != [] && (pc.ops[0].OpPublish? ==> s.mutex.Free?)
    case PayloadsDone => pc.Reassembling? && pc.ops == [] && pc.rest == []
    case ReadRunning => pc.Checking?
    case ResubmitOk => pc.Submitting?
    case ResubmitFail => pc.Submitting?
    case Drop => pc.Dropping? && s.mutex.Free?
  }

  /** What one micro-operation does to the shared buffers; `seqNo` is strmh->seq. */
  function Touch(m: Images, op: Op, seqNo: u32): Images {
    match op
    case OpHeader(p) => m
    case OpByte(x) =>
      if m.gotBytes >= |Mem(m, m.out)| then m.(fault := true)
      else if m.out.A? then m.(a := m.a[m.gotBytes := x], gotBytes := m.gotBytes + 1)
      else m.(b := m.b[m.gotBytes := x], gotBytes := m.gotBytes + 1)
    case OpPublish => m.(out := m.hold, hold := m.out, holdBytes := m.gotBytes, holdSeq := seqNo)
    case OpReset => m.(gotBytes := 0)
  }

  function Turn(s: State, pc: EventPc): State {
    s.(prod := s.prod.(pc := pc))
  }

  function EventNext(c: Config, s: State, x: EventStep): State
    requires EventEnabled(c, s, x)
  {
    var pc := s.prod.pc;
    match x
    case Deliver(t, how) =>
      Turn(s.(pool := s.pool.(objects := s.pool.objects[t := Delivered])),
           match how
           case Completed(ps) => Reassembling(t, ps, [])
           case Gone => Dropping(t)
           case Retry => Checking(t))
    case NextPayload =>
      var p := pc.rest[0];
      s.(prod := Producer(Reassembling(pc.t, pc.rest[1..], Plan(c.params, s.prod.asm, p)),
                          s.prod.asm, s.prod.log + [p]))
    case DoOp =>
      var op := pc.ops[0];
      var s1 := if op.OpPublish? then Broadcast(s) else s;
      s1.(prod := Producer(Reassembling(pc.t, pc.rest, pc.ops[1..]), Apply(c.params, s.prod.asm, op), s.prod.log),
          images := Touch(s.images, op, s.prod.asm.seqNo))
    case PayloadsDone => Turn(s, Checking(pc.t))
    case ReadRunning => Turn(s, if s.running then Submitting(pc.t) else Dropping(pc.t))
    case ResubmitOk => Turn(s.(pool := Resubmit(s.pool, pc.t)), Waiting)
    case ResubmitFail => Turn(s, Dropping(pc.t))
    case Drop =>
      var i := SlotOf(s.pool.slots, pc.t);
      Turn(Broadcast(s).(pool := if i < |s.pool.slots| then FreeSlot(s.pool, i) else s.pool), Waiting)
  }

  // ----- steps of the consumer -----

  datatype ConsumerStep =
    | CbLock | CbReadGuard | CbSleep | CbReadAgain(junk: seq<byte>) | CbReturn
    | PollCall(timeout: Timeout) | PollLock | PollFirst(junk: seq<byte>) | PollSecond(junk: seq<byte>)
    | PollTimeout | PollExpire
    | Relock | Spurious | CopyByte | CopyDone

  predicate ConsumerEnabled(c: Config, s: State, x: ConsumerStep) {
    var pc := s.user.pc;
    match x
    case CbLock => pc.CbLocking? && s.mutex.Free?
    case CbReadGuard => pc.CbGuard?
    case CbSleep => pc.CbSleeping?
    case CbReadAgain(junk) => pc.CbLeaving? && |junk| == s.images.holdBytes
    case CbReturn => pc.CbRunning?
    case PollCall(timeout) => pc.PollReady? && s.running   // else UVC_ERROR_INVALID_PARAM
    case PollLock => pc.PollLocking? && s.mutex.Free?
    case PollFirst(junk) => pc.PollTest? && |junk| == s.images.holdBytes
    case PollSecond(junk) => pc.PollRetest? && |junk| == s.images.holdBytes
    case PollTimeout => pc == ConsumerWait(true) && s.user.asleep
    case PollExpire => pc.PollExpired? && s.mutex.Free?
    case Relock => pc.ConsumerWait? && !s.user.asleep && s.mutex.Free?
    case Spurious => pc.ConsumerWait? && s.user.asleep
    case CopyByte => pc.Copying? && pc.k < s.images.holdBytes
    case CopyDone => pc.Copying? && pc.k >= s.images.holdBytes
  }

  /** The consumer moves on, and the mutex goes to or from it. */
  function Move(s: State, pc: ConsumerPc, mutex: Holder): State {
    s.(user := s.user.(pc := pc), mutex := mutex)
  }

  /** The consumer waits on cb_cond and gives up the mutex. */
  function FallAsleep(s: State, timed: bool): State {
    s.(user := s.user.(pc := ConsumerWait(timed), asleep := true), mutex := Free)
  }

  /** The start of _uvc_populate_frame: realloc leaves unknown bytes in frame->data. */
  function BeginCopy(u: User, m: Images, junk: seq<byte>): User {
    u.(pc := Copying(0), frame := junk, frameSeq := m.holdSeq)
  }

  /** Copy byte `k` of the presented buffer to frame->data. */
  function CopyOne(s: State, k: nat): State {
    var hold := Mem(s.images, s.images.hold);
    if k < |s.user.frame| && k < |hold|
    then s.(user := s.user.(frame := s.user.frame[k := hold[k]], pc := Copying(k + 1)))
    else s.(images := s.images.(fault := true), user := s.user.(pc := Copying(k + 1)))
  }

  function ConsumerNext(c: Config, s: State, x: ConsumerStep): State
    requires ConsumerEnabled(c, s, x)
  {
    match x
    case CbLock => Move(s, CbGuard, ByConsumer)
    case CbReadGuard => Move(s, if s.running && s.user.last == s.images.holdSeq then CbSleeping else CbLeaving, s.mutex)
    case CbSleep => FallAsleep(s, false)
    case CbReadAgain(junk) =>
      if !s.running then Move(s, CbDone, Free)
      else s.(user := BeginCopy(s.user.(last := s.images.holdSeq), s.images, junk))
    case CbReturn => Move(s, CbLocking, s.mutex)
    case PollCall(timeout) => Move(s, PollLocking(timeout), s.mutex)
    case PollLock => Move(s, PollTest(s.user.pc.timeout), ByConsumer)
    case PollFirst(junk) =>
      if s.user.last < s.images.holdSeq then s.(user := BeginCopy(s.user, s.images, junk))
      else if s.user.pc.timeout.Immediate? then Move(s, PollReady, Free)
      else FallAsleep(s, s.user.pc.timeout.Timed?)
    case PollSecond(junk) =>
      if s.user.last < s.images.holdSeq then s.(user := BeginCopy(s.user, s.images, junk))
      else Move(s, PollReady, Free)
    case PollTimeout => s.(user := s.user.(asleep := false, pc := PollExpired))
    case PollExpire => Move(s, PollReady, s.mutex)
    case Relock => Move(s, if c.polling then PollRetest else CbGuard, ByConsumer)
    case Spurious => s.(user := s.user.(asleep := false))
    case CopyByte => CopyOne(s, s.user.pc.k)
    case CopyDone =>
      var u := s.user.(delivered := s.user.delivered + [Delivery(s.user.frameSeq, s.user.frame)]);
      s.(mutex := Free,
         user := if c.polling then u.(pc := PollReady, last := s.images.holdSeq) else u.(pc := CbRunning))
  }

  // ----- runs -----

  /** One step of one thread; ControlSpurious is a spurious wake-up of the stopper. */
  datatype Step = Control(x: ControlStep) | Event(e: EventStep) | Consumer(y: ConsumerStep) | ControlSpurious

  predicate Enabled(c: Config, s: State, x: Step) {
    match x
    case Control(x) => ControlEnabled(c, s, x)
    case Event(e) => EventEnabled(c, s, e)
    case Consumer(y) => ConsumerEnabled(c, s, y)
    case ControlSpurious => s.ctl.pc.ControlWait? && s.ctl.asleep
  }

  function Next(c: Config, s: State, x: Step): State
    requires Enabled(c, s, x)
  {
    match x
    case Control(x) => ControlNext(c, s, x)
    case Event(e) => EventNext(c, s, e)
    case Consumer(y) => ConsumerNext(c, s, y)
    case ControlSpurious => s.(ctl := s.ctl.(asleep := false))
  }

  /** `s` is reached from an initial state by the steps `xs`. */
  ghost predicate Reaches(c: Config, xs: seq<Step>, s: State)
    decreases |xs|
  {
    if xs == [] then Init(c, s) else
      var k := |xs| - 1;
      exists s0 :: Reaches(c, xs[..k], s0) && Enabled(c, s0, xs[k]) && s == Next(c, s0, xs[k])
  }

  /** The enabled steps `xs`, of whatever threads, lead from `s` to `s'`. */
  ghost predicate Leads(c: Config, s: State, xs: seq<Step>, s': State)
    decreases |xs|
  {
    if xs == [] then s' == s else Enabled(c, s, xs[0]) && Leads(c, Next(c, s, xs[0]), xs[1..], s')
  }

  ghost predicate Reachable(c: Config, s: State) {
    exists xs :: Reaches(c, xs, s)
  }
}
