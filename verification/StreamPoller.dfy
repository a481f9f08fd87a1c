// uvc_stream_get_frame tests `running` before it takes cb_mutex. A poller that
// has passed the test when the stream is stopped can fall asleep after the last
// broadcast, and nobody wakes it: this is exactly when it does.
module StreamPoller {
  import opened Bytes
  import opened Reassembly
  import opened StreamProtocol
  import opened StreamSafety
  import opened StreamInvariant
  import opened StreamTheorems

  /** The poller has passed the test of `running`, may wait, and has seen the presented frame. */
  predicate Late(s: State) {
    && (s.user.pc.PollLocking? || s.user.pc.PollTest?)
    && !s.user.pc.timeout.Immediate?
    && s.images.holdSeq <= s.user.last
  }

  /** After uvc_stream_stop has returned, a poller that is neither late nor asleep
      never falls asleep again: no step of any thread makes it late or asleep. */
  lemma PunctualStaysAwake(c: Config, s: State, x: Step)
    requires Inv(c, s) && c.polling && s.ctl.pc.Stopped? && Enabled(c, s, x)
    requires !Late(s) && !s.user.asleep
    ensures var s' := Next(c, s, x);
            Inv(c, s') && s'.ctl.pc.Stopped? && !Late(s') && !s'.user.asleep
  {
    StepKeeps(c, s, x);
    QuietEvents(c, s, x);
    ConsumerFrame(c, s, x.y);
    PunctualConsumer(c, s, x.y);
    hide Inv, EventEnabled, EventNext, ControlEnabled, ControlNext, ConsumerEnabled, ConsumerNext;
  }

  lemma PunctualConsumer(c: Config, s: State, x: ConsumerStep)
    requires ConsumerEnabled(c, s, x) && CopyOk(s.images, s.user) && !s.running && c.polling
    requires LocksOk(c.polling, s.running, s.mutex, s.user, s.ctl) && !Late(s) && !s.user.asleep
    ensures !Late(ConsumerNext(c, s, x)) && !ConsumerNext(c, s, x).user.asleep
  {
    hide Mem;
  }

  /** After the stop, only the consumer can take a step. */
  lemma QuietEvents(c: Config, s: State, x: Step)
    requires Inv(c, s) && c.polling && s.ctl.pc.Stopped? && Enabled(c, s, x)
    ensures x.Consumer?
  {
    HandledIsHeld(c.n, s.pool, s.prod.pc, s.ctl.pc);
    NothingHeld(c.n, s.pool, s.prod.pc, s.ctl.pc);
    hide PoolOk, ImagesOk, HistoryOk, DeliveriesOk, AllReadable, Bounded, Readable;
  }

  /** How many of its own steps a late poller is from its wait. */
  function StepsToSleep(s: State): nat {
    if s.user.pc.PollLocking? then 2 else 1
  }

  /** It is unavoidable: whatever step is taken from a state with a late poller, the
      poller is asleep, or late and nearer to its wait. */
  lemma LateGoesOn(c: Config, s: State, x: Step)
    requires Inv(c, s) && c.polling && s.ctl.pc.Stopped? && Late(s) && Enabled(c, s, x)
    ensures var s' := Next(c, s, x);
            && Inv(c, s') && s'.ctl.pc.Stopped?
            && (s'.user.asleep || (Late(s') && StepsToSleep(s') < StepsToSleep(s)))
  {
    StepKeeps(c, s, x);
    QuietEvents(c, s, x);
    ConsumerFrame(c, s, x.y);
    LateConsumer(c, s, x.y);
    hide Inv, EventEnabled, EventNext, ControlEnabled, ControlNext, ConsumerEnabled, ConsumerNext;
  }

  lemma LateConsumer(c: Config, s: State, x: ConsumerStep)
    requires ConsumerEnabled(c, s, x) && Late(s)
    ensures var s' := ConsumerNext(c, s, x);
            s'.user.asleep || (Late(s') && StepsToSleep(s') < StepsToSleep(s))
  {
  }

  /** The step that a late poller takes. */
  function LateStep(s: State): Step {
    Consumer(if s.user.pc.PollLocking? then PollLock else PollFirst(seq(s.images.holdBytes, _ => 0)))
  }

  lemma LateCanStep(c: Config, s: State)
    requires LocksOk(c.polling, s.running, s.mutex, s.user, s.ctl) && s.ctl.pc.Stopped? && Late(s)
    ensures Enabled(c, s, LateStep(s))
  {
  }

  /** Who sleeps after the stop sleeps on: only a timeout, if one was given, or a spurious
      wake-up can be the next step. */
  lemma SleeperSleepsOn(c: Config, s: State, x: Step)
    requires Inv(c, s) && c.polling && s.ctl.pc.Stopped? && s.user.asleep && Enabled(c, s, x)
    ensures x == Consumer(Spurious) || (x == Consumer(PollTimeout) && s.user.pc == ConsumerWait(true))
  {
    QuietEvents(c, s, x);
    hide PoolOk, ImagesOk, HistoryOk, DeliveriesOk, WakeupsOk;
  }

  lemma {:induction false} LateFallsAsleep(c: Config, s: State) returns (xs: seq<Step>, s': State)
    requires Inv(c, s) && c.polling && s.ctl.pc.Stopped? && Late(s)
    ensures Leads(c, s, xs, s') && Inv(c, s') && s'.ctl.pc.Stopped? && s'.user.asleep
    decreases StepsToSleep(s)
  {
    var x := LateStep(s);
    LateCanStep(c, s);
    LateGoesOn(c, s, x);
    var s1 := Next(c, s, x);
    hide Inv, Enabled, Next, Late, LateStep, StepsToSleep;
    if s1.user.asleep {
      xs, s' := [x], s1;
      assert Leads(c, s1, [], s1);
    } else {
      var rest;
      rest, s' := LateFallsAsleep(c, s1);
      xs := [x] + rest;
      assert xs[1..] == rest;
    }
  }

  lemma {:induction false} PunctualNeverSleeps(c: Config, s: State, xs: seq<Step>, s': State)
    requires Inv(c, s) && c.polling && s.ctl.pc.Stopped? && !Late(s) && !s.user.asleep
    requires Leads(c, s, xs, s')
    ensures !s'.user.asleep
    decreases |xs|
  {
    hide Inv, Enabled, Next, Late;
    if xs != [] {
      PunctualStaysAwake(c, s, xs[0]);
      PunctualNeverSleeps(c, Next(c, s, xs[0]), xs[1..], s');
    }
  }

  /** Exactly the late pollers: an awake poller of a stopped stream can ever fall asleep
      if and only if it is late. */
  lemma FallsAsleepIffLate(c: Config, s: State)
    requires Inv(c, s) && c.polling && s.ctl.pc.Stopped? && !s.user.asleep
    ensures Late(s) <==> exists xs, s' :: Leads(c, s, xs, s') && s'.user.asleep
  {
    if Late(s) {
      var xs, s' := LateFallsAsleep(c, s);
    } else {
      forall xs, s' | Leads(c, s, xs, s')
        ensures !s'.user.asleep
      {
        PunctualNeverSleeps(c, s, xs, s');
      }
    }
  }

  /** At the final broadcast of stop everyone is woken; a poller can sleep after it if and
      only if it is late at that moment. */
  lemma BroadcastMissesTheLate(c: Config, s: State)
    requires Inv(c, s) && c.polling && Enabled(c, s, Control(Finish))
    ensures var s' := Next(c, s, Control(Finish));
            && s'.ctl.pc.Stopped? && !s'.user.asleep
            && (Late(s) <==> exists xs, t :: Leads(c, s', xs, t) && t.user.asleep)
  {
    StepKeeps(c, s, Control(Finish));
    var s' := Next(c, s, Control(Finish));
    assert s'.ctl.pc.Stopped? && !s'.user.asleep && (Late(s) <==> Late(s'));
    hide Inv, Enabled, Next, Late, Leads;
    FallsAsleepIffLate(c, s');
  }

  // ----- such a run exists -----

  const CONFIG := Config(Params(1, false), 1, true)

  function Start(): State {
    State(true, Free, Pool([Some(0)], [Idle], false), Producer(Waiting, FRESH, []),
          Images([0], [0], A, B, 0, 0, 0, false),
          User(PollReady, false, 0, [], 0, []), Starter(Launching(0), false))
  }

  lemma Take(xs: seq<Step>, s: State, x: Step) returns (ys: seq<Step>, s': State)
    requires Reaches(CONFIG, xs, s) && Enabled(CONFIG, s, x)
    ensures Reaches(CONFIG, ys, s') && s' == Next(CONFIG, s, x)
  {
    ys, s' := xs + [x], Next(CONFIG, s, x);
    assert ys[..|xs|] == xs;
  }

  const LATE := Start().user.(pc := PollLocking(Forever))

  /** The poller passes the test of `running`; then the stream is stopped, and all of
      uvc_stream_stop runs before the poller takes the mutex. */
  lemma LateIsReachable() returns (s: State)
    ensures Reachable(CONFIG, s) && s.ctl.pc.Stopped?
    ensures Late(s) && s.user.pc == PollLocking(Forever)
  {
    var xs: seq<Step>;
    xs, s := Returned();
    assert Reachable(CONFIG, s);
  }

  /** It then takes the mutex and waits: the stream has stopped, and it is asleep with no
      timeout, so that nothing but a spurious wake-up can happen any more. */
  lemma SleeperIsReachable() returns (s: State)
    ensures Reachable(CONFIG, s) && s.ctl.pc.Stopped?
    ensures s.user.asleep && s.user.pc == ConsumerWait(false)
    ensures forall x :: Enabled(CONFIG, s, x) ==> x == Consumer(Spurious)
  {
    var xs: seq<Step>;
    xs, s := Slept();
    assert Reachable(CONFIG, s);
    ReachableInv(CONFIG, s);
    hide Inv, Enabled, Reachable, Reaches;
    forall x | Enabled(CONFIG, s, x)
      ensures x == Consumer(Spurious)
    {
      SleeperSleepsOn(CONFIG, s, x);
    }
  }

  lemma StartReached()
    ensures Reaches(CONFIG, [], Start())
  {
    var s := Start();
    assert s.pool.slots == seq(1, i requires 0 <= i < 1 => Some(i));
    assert s.pool.objects == seq(1, i requires 0 <= i < 1 => Idle);
  }

  lemma Submitted() returns (ys: seq<Step>, s': State)
    ensures Reaches(CONFIG, ys, s')
    ensures s' == State(false, ByControl, Pool([Some(0)], [InFlight], false), Start().prod, Start().images,
                        LATE, Starter(Cancelling(0), false))
  {
    StartReached();
    hide Reaches;
    ys, s' := Take([], Start(), Control(SubmitOk));
    ys, s' := Take(ys, s', Control(LaunchDone));
    ys, s' := Take(ys, s', Consumer(PollCall(Forever)));
    ys, s' := Take(ys, s', Control(ClearRunning));
    ys, s' := Take(ys, s', Control(StopLock));
  }

  lemma Emptied() returns (ys: seq<Step>, s': State)
    ensures Reaches(CONFIG, ys, s')
    ensures s' == State(false, Free, Pool([None], [Freed], false), Start().prod, Start().images,
                        LATE, Starter(ControlWait, false))
  {
    hide Reaches, SlotOf;
    ys, s' := Submitted();
    ys, s' := Take(ys, s', Control(CancelNext));
    ys, s' := Take(ys, s', Control(CancelDone));
    assert s'.pool.slots[0].Some?;
    ys, s' := Take(ys, s', Control(Scan));
    ys, s' := Take(ys, s', Event(Deliver(0, Gone)));
    SlotFound(s'.pool.slots, 0);
    ys, s' := Take(ys, s', Event(Drop));
  }

  lemma Returned() returns (ys: seq<Step>, s': State)
    ensures Reaches(CONFIG, ys, s')
    ensures s'.ctl.pc.Stopped? && s'.mutex.Free? && s'.user == LATE && s'.images == Start().images
  {
    hide Reaches;
    ys, s' := Emptied();
    ys, s' := Take(ys, s', Control(StopRelock));
    ys, s' := Take(ys, s', Control(Scan));
    ys, s' := Take(ys, s', Control(Finish));
  }

  lemma Slept() returns (ys: seq<Step>, s': State)
    ensures Reaches(CONFIG, ys, s')
    ensures s'.ctl.pc.Stopped? && s'.user.asleep && s'.user.pc == ConsumerWait(false)
  {
    hide Reaches;
    ys, s' := Returned();
    ys, s' := Take(ys, s', Consumer(PollLock));
    ys, s' := Take(ys, s', Consumer(PollFirst([])));
  }
}
