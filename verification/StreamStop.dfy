// uvc_stream_stop comes to an end under every schedule, if transfers in flight
// complete and the user's callback returns.
module StreamStop {
  import opened Bytes
  import opened Reassembly
  import opened StreamProtocol
  import opened StreamSafety
  import opened StreamInvariant
  import opened StreamTheorems

  // ----- a rank that every step lowers once `running` is cleared -----

  function Weight(t: Transfer): nat {
    match t
    case InFlight => 2
    case Delivered => 1
    case _ => 0
  }

  function Weights(ts: seq<Transfer>): nat {
    if ts == [] then 0 else Weight(ts[0]) + Weights(ts[1..])
  }

  lemma {:induction false} WeightsUpdate(ts: seq<Transfer>, i: nat, t: Transfer)
    requires i < |ts|
    ensures Weights(ts[i := t]) == Weights(ts) - Weight(ts[i]) + Weight(t)
  {
    if i == 0 {
      assert ts[0 := t][1..] == ts[1..];
    } else {
      WeightsUpdate(ts[1..], i - 1, t);
      assert ts[i := t][1..] == ts[1..][i - 1 := t];
    }
  }

  /** A callback that has read running == 1 weighs 3, a transfer in flight 2, one in
      its callback 1, and a freed one nothing. */
  function PoolRank(s: State): nat {
    Weights(s.pool.objects) + if s.prod.pc.Submitting? then 2 else 0
  }

  /** More operations than _uvc_process_payload takes for `p`, and one. */
  function Effort(p: Payload): nat {
    |p| + 6
  }

  function Efforts(ps: seq<Payload>): nat {
    if ps == [] then 0 else Effort(ps[0]) + Efforts(ps[1..])
  }

  /** What is left to do in the callback under way. */
  function CallbackRank(pc: EventPc): nat {
    match pc
    case Reassembling(t, rest, ops) => 3 + |ops| + Efforts(rest)
    case Checking(t) => 2
    case Dropping(t) => 1
    case _ => 0
  }

  function ControlRank(n: nat, ctl: Starter): nat {
    match ctl.pc
    case StopLocking => n + 8
    case Cancelling(k) => 6 + (if k <= n then n - k else 0)
    case ControlWait => if ctl.asleep then 3 else 5
    case Scanning => 4
    case Finishing => 2
    case Joining => 1
    case _ => 0
  }

  function ConsumerRank(u: User, holdBytes: nat): nat {
    match u.pc
    case PollLocking(_) => holdBytes + 10
    case CbSleeping => holdBytes + 9
    case PollTest(_) => holdBytes + 9
    case ConsumerWait(_) => if u.asleep then holdBytes + 8 else holdBytes + 7
    case PollRetest => holdBytes + 6
    case Copying(k) => 5 + (if k <= holdBytes then holdBytes - k else 0)
    case CbRunning => 4
    case CbLocking => 3
    case CbGuard => 2
    case CbLeaving => 1
    case PollExpired => 1
    case _ => 0
  }

  datatype Rank = Rank(pool: nat, callback: nat, threads: nat)

  function RankOf(c: Config, s: State): Rank {
    Rank(PoolRank(s), CallbackRank(s.prod.pc),
         ControlRank(c.n, s.ctl) + ConsumerRank(s.user, s.images.holdBytes))
  }

  predicate Below(a: Rank, b: Rank) {
    || a.pool < b.pool
    || (a.pool == b.pool && a.callback < b.callback)
    || (a.pool == b.pool && a.callback == b.callback && a.threads < b.threads)
  }

  predicate IsSpurious(x: Step) {
    x.ControlSpurious? || (x.Consumer? && x.y.Spurious?)
  }

  lemma PlanLength(c: Params, s: Asm, p: Payload)
    requires Bounded(c, s) && Readable(c, p)
    ensures |Plan(c, s, p)| < Effort(p)
  {
    hide Bit, HasIsightTag;
  }

  lemma ControlLowers(c: Config, s: State, x: ControlStep)
    requires PoolOk(c.n, s.pool, s.prod.pc, s.ctl.pc)
    requires LocksOk(c.polling, s.running, s.mutex, s.user, s.ctl)
    requires !s.running && ControlEnabled(c, s, x)
    ensures Below(RankOf(c, ControlNext(c, s, x)), RankOf(c, s))
  {
    if x.CancelNext? {
      CancelHarmless(c, s);
    }
    hide PoolOk, AllNull, FreeSlot, SubmitSlot, CancelSlot, Weights, Efforts;
  }

  lemma CancelHarmless(c: Config, s: State)
    requires PoolOk(c.n, s.pool, s.prod.pc, s.ctl.pc) && ControlEnabled(c, s, CancelNext)
    ensures ControlNext(c, s, CancelNext).pool == s.pool
  {
  }

  lemma ConsumerLowers(c: Config, s: State, x: ConsumerStep)
    requires !s.running && ConsumerEnabled(c, s, x) && !x.Spurious?
    ensures Below(RankOf(c, ConsumerNext(c, s, x)), RankOf(c, s))
  {
    hide Mem, Weights, Efforts;
  }

  lemma DeliverLowers(c: Config, s: State, x: EventStep)
    requires EventEnabled(c, s, x) && x.Deliver?
    ensures PoolRank(EventNext(c, s, x)) < PoolRank(s)
  {
    WeightsUpdate(s.pool.objects, x.t, Delivered);
    hide AllReadable, Weights;
  }

  lemma ResubmitLowers(c: Config, s: State)
    requires PoolOk(c.n, s.pool, s.prod.pc, s.ctl.pc) && EventEnabled(c, s, ResubmitOk)
    ensures PoolRank(EventNext(c, s, ResubmitOk)) < PoolRank(s)
  {
    WeightsUpdate(s.pool.objects, s.prod.pc.t, InFlight);
    hide Weights;
  }

  lemma DropLowers(c: Config, s: State)
    requires PoolOk(c.n, s.pool, s.prod.pc, s.ctl.pc) && EventEnabled(c, s, Drop)
    ensures PoolRank(EventNext(c, s, Drop)) < PoolRank(s)
  {
    var t := s.prod.pc.t;
    SlotFound(s.pool.slots, t);
    WeightsUpdate(s.pool.objects, t, Freed);
    hide Weights, SlotOf;
  }

  lemma EventLowers(c: Config, s: State, x: EventStep)
    requires PoolOk(c.n, s.pool, s.prod.pc, s.ctl.pc)
    requires !s.running && EventEnabled(c, s, x)
    ensures Below(RankOf(c, EventNext(c, s, x)), RankOf(c, s))
  {
    match x
    case Deliver(_, _) => DeliverLowers(c, s, x);
    case ResubmitOk => ResubmitLowers(c, s);
    case Drop => DropLowers(c, s);
    case NextPayload =>
      PlanLength(c.params, s.prod.asm, s.prod.pc.rest[0]);
      hide Plan, Weights, PoolOk, Bounded, Readable;
    case _ =>
      hide Apply, Touch, Weights, PoolOk;
  }

  /** Once `running` is cleared, every step but a spurious wake-up lowers the rank,
      the late resubmission of a callback that has read running == 1 included. */
  lemma StepLowers(c: Config, s: State, x: Step)
    requires Inv(c, s) && !s.running && Enabled(c, s, x) && !IsSpurious(x)
    ensures Inv(c, Next(c, s, x)) && !Next(c, s, x).running
    ensures Below(RankOf(c, Next(c, s, x)), RankOf(c, s))
  {
    StepKeeps(c, s, x);
    StaysCleared(c, s, x);
    match x
    case Control(y) => ControlLowers(c, s, y);
    case Event(y) => EventLowers(c, s, y);
    case Consumer(y) => ConsumerLowers(c, s, y);
  }

  lemma StaysCleared(c: Config, s: State, x: Step)
    requires !s.running && Enabled(c, s, x)
    ensures !Next(c, s, x).running
  {
    hide Plan, Apply, Touch, SlotOf, FreeSlot, SubmitSlot, CancelSlot, Resubmit, AllReadable, AllNull, Mem;
  }

  // ----- cancellation -----

  /** How many transfers the stopper has asked libusb to cancel. */
  function Cancels(xs: seq<Step>): nat {
    if xs == [] then 0 else
      var k := |xs| - 1;
      Cancels(xs[..k]) + if xs[k] == Control(CancelNext) then 1 else 0
  }

  function CancelsAt(c: Config, pc: ControlPc): nat {
    match pc
    case Launching(_) => 0
    case Abandoning(_) => 0
    case Streaming => 0
    case StopLocking => 0
    case Cancelling(k) => k
    case _ => c.n
  }

  lemma StepCancels(c: Config, s: State, x: Step)
    requires Enabled(c, s, x) && (s.ctl.pc.Cancelling? ==> s.ctl.pc.k <= c.n)
    ensures var pc := Next(c, s, x).ctl.pc;
            && CancelsAt(c, pc) == CancelsAt(c, s.ctl.pc) + (if x == Control(CancelNext) then 1 else 0)
            && (pc.Cancelling? ==> pc.k <= c.n)
  {
    hide Plan, Apply, Touch, SlotOf, FreeSlot, SubmitSlot, CancelSlot, Resubmit, AllReadable, AllNull, Mem;
  }

  /** Before the stopper waits, every one of the transfers has been looked at, and those
      that are left have been cancelled, once. */
  lemma {:induction false} CancelsAll(c: Config, xs: seq<Step>, s: State)
    requires Reaches(c, xs, s)
    ensures Cancels(xs) == CancelsAt(c, s.ctl.pc) && (s.ctl.pc.Cancelling? ==> s.ctl.pc.k <= c.n)
    decreases |xs|
  {
    hide Next, Enabled, CancelsAt;
    if xs == [] {
      StartsUncancelled(c, s);
    } else {
      var k := |xs| - 1;
      var s0 :| Reaches(c, xs[..k], s0) && Enabled(c, s0, xs[k]) && s == Next(c, s0, xs[k]);
      CancelsAll(c, xs[..k], s0);
      StepCancels(c, s0, xs[k]);
    }
  }

  lemma StartsUncancelled(c: Config, s: State)
    requires Init(c, s)
    ensures CancelsAt(c, s.ctl.pc) == 0 && !s.ctl.pc.Cancelling?
  {
  }

  // ----- no deadlock -----

  function HolderStep(s: State): ConsumerStep {
    var junk := seq(s.images.holdBytes, _ => 0);
    match s.user.pc
    case CbGuard => CbReadGuard
    case CbSleeping => CbSleep
    case CbLeaving => CbReadAgain(junk)
    case PollTest(_) => PollFirst(junk)
    case PollRetest => PollSecond(junk)
    case Copying(k) => if k < s.images.holdBytes then CopyByte else CopyDone
    case _ => CbReturn
  }

  function ControlHolderStep(c: Config, s: State): ControlStep {
    match s.ctl.pc
    case Cancelling(k) => if k < c.n then CancelNext else CancelDone
    case Scanning => Scan
    case _ => Finish
  }

  function CallbackStep(s: State): EventStep {
    match s.prod.pc
    case Reassembling(t, rest, ops) => if ops != [] then DoOp else if rest != [] then NextPayload else PayloadsDone
    case Checking(t) => ReadRunning
    case Submitting(t) => ResubmitFail
    case _ => Drop
  }

  /** What moves when no thread is inside the mutex or in a callback. */
  function RestingStep(s: State, t: nat): Step {
    if s.ctl.pc.StopLocking? then Control(StopLock)
    else if s.ctl.pc.ControlWait? then
      if s.ctl.asleep then Event(Deliver(t, Gone)) else Control(StopRelock)
    else
      match s.user.pc
      case CbDone => Control(Join)
      case CbLocking => Consumer(CbLock)
      case CbRunning => Consumer(CbReturn)
      case _ => Consumer(Relock)
  }

  /** The stopper only sleeps while a transfer is in flight or in its callback. */
  lemma SomeInFlight(n: nat, p: Pool, e: EventPc, pc: ControlPc) returns (t: nat)
    requires PoolOk(n, p, e, pc) && e.Waiting? && !AllNull(p)
    requires !pc.Launching? && !pc.Abandoning?
    ensures t < |p.objects| && p.objects[t].InFlight?
  {
    t :| 0 <= t < |p.slots| && p.slots[t] != None;
  }

  lemma RestingMoves(c: Config, s: State, t: nat)
    requires LocksOk(c.polling, s.running, s.mutex, s.user, s.ctl) && s.mutex.Free?
    requires WakeupsOk(c.polling, s.running, s.user, s.ctl, AllNull(s.pool), s.images.holdSeq)
    requires !s.running && !s.ctl.pc.Stopped? && s.prod.pc.Waiting?
    requires s.ctl.asleep ==> t < |s.pool.objects| && s.pool.objects[t].InFlight?
    ensures Enabled(c, s, RestingStep(s, t)) && !IsSpurious(RestingStep(s, t))
  {
    hide AllNull;
  }

  /** While the stop is under way, some step other than a spurious wake-up is enabled. */
  lemma NeverStuck(c: Config, s: State) returns (x: Step)
    requires Inv(c, s) && !s.running && !s.ctl.pc.Stopped?
    ensures Enabled(c, s, x) && !IsSpurious(x)
  {
    if s.mutex.Free? && s.prod.pc.Waiting? {
      var t := 0;
      if s.ctl.asleep {
        t := SomeInFlight(c.n, s.pool, s.prod.pc, s.ctl.pc);
      }
      hide PoolOk, ImagesOk, HistoryOk, DeliveriesOk, Enabled, AllNull, RestingStep, IsSpurious;
      RestingMoves(c, s, t);
      x := RestingStep(s, t);
    } else {
      hide PoolOk, WakeupsOk, ImagesOk, DeliveriesOk, Run, ProcessAll, Numbered, Sound, Bounded, Readable;
      x := match s.mutex
        case ByConsumer => Consumer(HolderStep(s))
        case ByControl => Control(ControlHolderStep(c, s))
        case Free => Event(CallbackStep(s));
    }
  }

  // ----- termination under every schedule -----

  /** A schedule picks the next step, at any moment and in any state. */
  type Schedule = (nat, State) -> Step

  /** While the stop is under way, the schedule picks an enabled step that is not a
      spurious wake-up. By NeverStuck, there is one to pick. */
  ghost predicate Schedules(c: Config, f: Schedule) {
    forall k: nat, s: State {:trigger f(k, s)} | Inv(c, s) && !s.running && !s.ctl.pc.Stopped? ::
      Enabled(c, s, f(k, s)) && !IsSpurious(f(k, s))
  }

  /** The state after `n` steps of the schedule. */
  ghost function Follow(c: Config, f: Schedule, k: nat, s: State, n: nat): State
    decreases n
  {
    if n == 0 || !Enabled(c, s, f(k, s)) then s else Follow(c, f, k + 1, Next(c, s, f(k, s)), n - 1)
  }

  /** uvc_stream_stop has returned: all transfers are freed, and a callback thread has ended. */
  predicate Over(c: Config, s: State) {
    && s.ctl.pc.Stopped? && AllNull(s.pool) && !s.pool.fault
    && (forall i | 0 <= i < |s.pool.objects| :: s.pool.objects[i].Freed?)
    && (c.polling || s.user.pc.CbDone?)
  }

  lemma StoppedIsOver(c: Config, s: State)
    requires Inv(c, s) && s.ctl.pc.Stopped?
    ensures Over(c, s)
  {
    hide ImagesOk, HistoryOk, DeliveriesOk, LocksOk;
  }

  /** Once `running` is cleared, every schedule brings uvc_stream_stop to its end. */
  lemma {:induction false} StopTerminates(c: Config, f: Schedule, k: nat, s: State) returns (n: nat)
    requires Schedules(c, f) && Inv(c, s) && !s.running
    ensures Over(c, Follow(c, f, k, s, n))
    decreases PoolRank(s), CallbackRank(s.prod.pc), RankOf(c, s).threads
  {
    hide Inv, Next, Enabled, PoolRank, CallbackRank, ControlRank, ConsumerRank, Over, IsSpurious;
    if s.ctl.pc.Stopped? {
      n := 0;
      StoppedIsOver(c, s);
    } else {
      var x := f(k, s);
      assert Enabled(c, s, x) && !IsSpurious(x);
      StepLowers(c, s, x);
      var m := StopTerminates(c, f, k + 1, Next(c, s, x));
      n := m + 1;
    }
  }

  /** A schedule exists: the one that always picks the step of NeverStuck. */
  lemma ScheduleExists(c: Config)
    ensures exists f: Schedule :: Schedules(c, f)
  {
    forall s: State | Inv(c, s) && !s.running && !s.ctl.pc.Stopped?
      ensures exists x :: Enabled(c, s, x) && !IsSpurious(x)
    {
      var x := NeverStuck(c, s);
    }
    var f: Schedule := (k, s) => Choice(c, s);
    assert Schedules(c, f) by {
      hide Inv, Enabled;
    }
  }

  ghost function Choice(c: Config, s: State): Step {
    if exists x :: Enabled(c, s, x) && !IsSpurious(x)
    then var x :| Enabled(c, s, x) && !IsSpurious(x); x
    else ControlSpurious
  }
}
