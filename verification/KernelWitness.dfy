/** Runs from boot on which the kernel fails what it is for: a message that overtakes an older one, a
    receiver that sleeps for ever, and a timeout that comes at once. */
module KernelWitness {
  import opened KernelState
  import opened KernelInvariants
  import opened KernelSteps
  import opened KernelPipes
  import opened KernelWakes
  import opened KernelParents
  import opened KernelLost
  import opened KernelFairness
  import opened KernelLaws
  import opened KernelTaskLaws
  import opened KernelTimeouts
  import opened Options

  const LONG: seq<bv8> := [0, 0]
  const SHORT: seq<bv8> := [0]
  const STARTUP: seq<Step> := [Create(0), Create(0), Start, OpenChannel("x", true)]

  /** User 1 runs, user 2 is the only other ready task. */
  ghost predicate Pair(s: State) {
    && Inv(s) && s.sched.current == 1 && s.sched.tasks[1].slice == 0 && s.sched.tasks[2].state == Ready
    && forall p | 2 < p < PROCESS_LIMIT :: s.sched.tasks[p].state == Unused
  }

  /** ... and channel 0 is open and idle. */
  ghost predicate Opened(s: State) {
    Pair(s) && s.channels[0].active && !s.channels[0].waiter.active && !s.channels[0].sender.active
    && s.channels[0].count == 0
  }

  /** User 1 sleeps on channel 0 with a one-byte buffer and user 2 runs. */
  ghost predicate Dozing(s: State) {
    && Inv(s) && s.sched.current == 2 && s.sched.tasks[1].state == Blocked
    && s.channels[0].active && s.channels[0].waiter == Waiter(true, 1, 1, false) && !s.channels[0].sender.active
  }

  lemma RunOne(s: State, steps: seq<Step>, step: Step)
    requires Shape(s)
    ensures Run(s, steps + [step]) == Next(Run(s, steps), step).state
    ensures forall c :: Accepted(s, steps + [step], c)
                        == Accepted(s, steps, c) + Passed(Next(Run(s, steps), step).accepted, c)
    ensures forall c :: Delivered(s, steps + [step], c)
                        == Delivered(s, steps, c) + Passed(Next(Run(s, steps), step).delivered, c)
  {
    assert (steps + [step])[..|steps|] == steps;
  }

  // ----- the startup -----

  lemma CreateTwo(s: State)
    requires Initial(s)
    ensures var r := Next(Next(s, Create(0)).state, Create(0)).state;
            && r.sched == s.sched.(tasks := s.sched.tasks[1 := NewTask(0, 1)][2 := NewTask(0, 2)], fpu := r.sched.fpu)
            && r.channels == s.channels && |r.sched.fpu| == PROCESS_LIMIT
  {
    var t := s.sched.tasks;
    assert FirstUnused(t, 1) == 1;
    var u := t[1 := NewTask(0, 1)];
    assert FirstUnused(u, 1) == FirstUnused(u, 2) == 2;
  }

  lemma StartPair(s: State, r: State)
    requires Initial(s) && Inv(r) && r.channels == s.channels
    requires r.sched == s.sched.(tasks := s.sched.tasks[1 := NewTask(0, 1)][2 := NewTask(0, 2)], fpu := r.sched.fpu)
    ensures Inv(Next(r, Start).state) ==> Pair(Next(r, Start).state)
    ensures Next(r, Start).state.channels == s.channels
  {
    assert NextReady(r.sched.tasks, 0) == 1 by { assert Candidate(0, 1) == 1; }
  }

  lemma OpenFirst(s: State)
    requires Pair(s) && (forall c | 0 <= c < CHANNEL_LIMIT :: !s.channels[c].active)
    requires Inv(Next(s, OpenChannel("x", true)).state)
    ensures Opened(Next(s, OpenChannel("x", true)).state)
  {
    assert FirstFree(s.channels, 0) == 0;
  }

  /** Two users and an idle channel, from any boot state. */
  lemma Startup(s: State)
    requires Initial(s)
    ensures Opened(Run(s, STARTUP))
  {
    assert STARTUP[..1] == [Create(0)] && STARTUP[..2] == [Create(0), Create(0)];
    assert STARTUP[..3] == [Create(0), Create(0), Start];
    RunOne(s, [], Create(0));
    RunOne(s, [Create(0)], Create(0));
    RunOne(s, [Create(0), Create(0)], Start);
    RunOne(s, [Create(0), Create(0), Start], OpenChannel("x", true));
    assert STARTUP == [Create(0), Create(0), Start] + [OpenChannel("x", true)];
    assert [Create(0), Create(0), Start] == [Create(0), Create(0)] + [Start];
    assert [Create(0)] + [Create(0)] == [Create(0), Create(0)] && [] + [Create(0)] == [Create(0)];
    assert forall c | 0 <= c < CHANNEL_LIMIT :: !s.channels[c].active;
    assert Run(s, []) == s;
    hide *;
    BootInv(s);
    CreateTwo(s);
    RunInv(s, STARTUP[..2]);
    RunInv(s, STARTUP[..3]);
    RunInv(s, STARTUP);
    StartPair(s, Run(s, STARTUP[..2]));
    OpenFirst(Run(s, STARTUP[..3]));
  }

  lemma BootInv(s: State)
    requires Initial(s)
    ensures Inv(s)
  {
    InitialOk(s, s.sched.fpu[0 := s.sched.cpu]);
  }

  // ----- the steps -----

  /** A blocking receive of one byte puts user 1 to sleep when nothing that short is queued. */
  lemma Doze(s: State)
    requires Pair(s) && s.channels[0].active && !s.channels[0].waiter.active && !s.channels[0].sender.active
    requires !HeadFits(s.channels[0], 1)
    ensures var o := Next(s, Recv(Some(0), 1, false));
            && Dozing(o.state) && o.state.channels[0] == s.channels[0].(waiter := Waiter(true, 1, 1, false))
            && o.accepted == None && o.delivered == None
  {
    NextInv(s, Recv(Some(0), 1, false));
    var b := SetTask(s.sched, 1, s.sched.tasks[1].(state := Blocked, waitingFor := None));
    NextReadySpec(b.tasks, 1);
    assert NextReady(b.tasks, 1) == 2;
    assert Receive(s, Some(0), 1).message == None;
  }

  lemma SendLong(s: State)
    requires Opened(s)
    ensures var o := Next(s, Send(Some(0), LONG));
            && Pair(o.state) && o.accepted == Some((0, Message(1, LONG))) && o.delivered == None
            && o.state.channels[0].active && !o.state.channels[0].waiter.active && !o.state.channels[0].sender.active
            && Ring(o.state.channels[0]) == [Message(1, LONG)] && !HeadFits(o.state.channels[0], 1)
  {
    NextInv(s, Send(Some(0), LONG));
    EnqueueRing(s.channels[0], Message(1, LONG));
    var d := Next(s, Send(Some(0), LONG)).state.channels[0];
    assert Ring(d)[0] == d.messages[d.read];
  }

  lemma SendShort(s: State)
    requires Dozing(s)
    ensures var o := Next(s, Send(Some(0), SHORT));
            && o.accepted == Some((0, Message(2, SHORT))) && o.delivered == o.accepted
            && o.state.channels[0].active && Outstanding(o.state.channels[0]) == Ring(s.channels[0])
  {
    var o := Next(s, Send(Some(0), SHORT));
    assert Ring(o.state.channels[0]) == Ring(s.channels[0]);
  }

  // ----- the two runs -----

  const OVERTAKING: seq<Step> := [Send(Some(0), LONG), Recv(Some(0), 1, false), Send(Some(0), SHORT)]

  /** The long message was accepted first, and only the short one comes out. */
  lemma OvertakenRun(s: State)
    requires Initial(s)
    ensures var b := Run(s, STARTUP);
            && b.channels[0].active && ReadyPipe(b.channels[0]) && Outstanding(b.channels[0]) == []
            && StaysOpen(b, OVERTAKING, 0)
            && Accepted(b, OVERTAKING, 0) == [Message(1, LONG), Message(2, SHORT)]
            && Delivered(b, OVERTAKING, 0) == [Message(2, SHORT)]
            && Outstanding(Run(b, OVERTAKING).channels[0]) == [Message(1, LONG)]
            && !Lossless(b, OVERTAKING, 0)
  {
    Startup(s);
    OvertakenFrom(Run(s, STARTUP));
    hide Run, Lossless, StaysOpen;
  }

  lemma OvertakenFrom(b: State)
    requires Opened(b)
    ensures StaysOpen(b, OVERTAKING, 0) && !Lossless(b, OVERTAKING, 0)
    ensures Accepted(b, OVERTAKING, 0) == [Message(1, LONG), Message(2, SHORT)]
    ensures Delivered(b, OVERTAKING, 0) == [Message(2, SHORT)]
    ensures Outstanding(Run(b, OVERTAKING).channels[0]) == [Message(1, LONG)]
  {
    var one, two, three := OVERTAKING[0], OVERTAKING[1], OVERTAKING[2];
    RunOne(b, [], one);
    RunOne(b, [one], two);
    RunOne(b, [one, two], three);
    assert [] + [one] == [one] && [one] + [two] == [one, two] && [one, two] + [three] == OVERTAKING;
    SendLong(b);
    var r1 := Next(b, one).state;
    Doze(r1);
    var r2 := Next(r1, two).state;
    SameRing(r1.channels[0], r2.channels[0]);
    SendShort(r2);
    assert Accepted(b, [], 0) == [] && Delivered(b, [], 0) == [] && Run(b, []) == b && StaysOpen(b, [], 0);
    OpenOne(b, [], one);
    OpenOne(b, [one], two);
    OpenOne(b, [one, two], three);
    assert Outstanding(b.channels[0]) == [];
    assert (Outstanding(b.channels[0]) + Accepted(b, OVERTAKING, 0))[0] == Message(1, LONG);
    assert (Delivered(b, OVERTAKING, 0) + Outstanding(Run(b, OVERTAKING).channels[0]))[0] == Message(2, SHORT);
    hide Pair, Dozing, Opened, Ring, RingOk, Next, Run, Outstanding, StaysOpen, Accepted, Delivered, HeadFits;
  }

  lemma SameRing(c: Channel, d: Channel)
    requires RingOk(c) && d == c.(waiter := d.waiter) && RingOk(d)
    ensures Ring(d) == Ring(c)
  {
  }

  lemma OpenOne(s: State, steps: seq<Step>, step: Step)
    requires Shape(s) && StaysOpen(s, steps, 0) && CleanedPid(Run(s, steps), step) == None
    requires Next(Run(s, steps), step).state.channels[0].active
    ensures StaysOpen(s, steps + [step], 0)
  {
    assert (steps + [step])[..|steps|] == steps;
    hide Next, CleanedPid;
  }

  const STRANDING: seq<Step> := [Recv(Some(0), 1, false), Send(Some(0), LONG)]

  /** User 1 is lost, and sleeps through every further run that does not end it. */
  lemma StrandedRun(s: State, more: seq<Step>)
    requires Initial(s) && Spared(Run(Run(s, STARTUP), STRANDING), more, 1)
    ensures Lost(Run(Run(Run(s, STARTUP), STRANDING), more), 1)
  {
    Startup(s);
    var b := Run(s, STARTUP);
    RunOne(b, [], STRANDING[0]);
    RunOne(b, [STRANDING[0]], STRANDING[1]);
    assert STRANDING == [STRANDING[0]] + [STRANDING[1]] && [STRANDING[0]] == [] + [STRANDING[0]];
    assert Run(b, []) == b;
    assert !HeadFits(b.channels[0], 1);
    Doze(b);
    var r := Next(b, STRANDING[0]).state;
    assert Asleep(r, 0, 1, false);
    StrandedSleepsOn(r, LONG, 0, 1, more);
  }

  // ----- a delay that wraps -----

  lemma StartupClock(s: State)
    requires Initial(s)
    ensures Run(s, STARTUP).sched.ticks == 0 && Run(s, STARTUP).input == s.input
  {
    assert STARTUP[..1] == [Create(0)] && STARTUP[..2] == [Create(0), Create(0)];
    assert STARTUP[..3] == [Create(0), Create(0), Start];
    assert STARTUP == [Create(0), Create(0), Start] + [OpenChannel("x", true)];
    assert [Create(0), Create(0), Start] == [Create(0), Create(0)] + [Start];
    assert [Create(0)] + [Create(0)] == [Create(0), Create(0)] && [] + [Create(0)] == [Create(0)];
    assert Run(s, []) == s;
    RunOne(s, [], Create(0));
    RunOne(s, [Create(0)], Create(0));
    RunOne(s, [Create(0), Create(0)], Start);
    RunOne(s, [Create(0), Create(0), Start], OpenChannel("x", true));
    BootInv(s);
    hide *;
    QuietInput(s, Create(0));
    QuietInput(Run(s, STARTUP[..1]), Create(0));
    QuietInput(Run(s, STARTUP[..2]), Start);
    QuietInput(Run(s, STARTUP[..3]), OpenChannel("x", true));
    InitialClock(s);
  }

  lemma InitialClock(s: State)
    requires Initial(s)
    ensures s.sched.ticks == 0
  {
  }

  lemma QuietInput(s: State, step: Step)
    requires Inv(s) && (step.Create? || step.Start? || step.OpenChannel?)
    ensures Inv(Next(s, step).state)
    ensures Next(s, step).state.input == s.input && Next(s, step).state.sched.ticks == s.sched.ticks
  {
    NextInv(s, step);
    Clock(s, step);
    hide Inv, CreateUser, StartUsers;
  }

  lemma TimeoutsInput(s: State, n: nat)
    requires Shape(s) && 1 <= n <= PROCESS_LIMIT && s.input.waiter == None
    ensures TimeoutsTo(s, n).input == s.input
  {
    if n > 1 { TimeoutsInput(s, n - 1); }
  }

  /** A tick while user 1 still has most of its quantum. */
  lemma TickOpened(s: State)
    requires Opened(s) && s.input.waiter == None
    ensures var r := Next(s, Tick).state;
            Inv(r) && r.sched.current == 1 && r.channels[0].active && !r.channels[0].waiter.active
            && r.channels[0].count == 0 && r.input == s.input
  {
    NextInv(s, Tick);
    TickLaw(s);
    OtherStepsKept(s, Tick, 0);
    TimeoutsInput(s.(sched := s.sched.(ticks := (s.sched.ticks + 1) % U64)), PROCESS_LIMIT);
    hide Inv, TimeoutsTo, ChargeTick, HandedOn;
  }

  /** User 1 asks for the longest timeout there is, at tick 1, and is woken by the very next tick. */
  lemma WrappedRun(s: State)
    requires Initial(s)
    ensures var b := Next(Run(s, STARTUP), Tick).state; var r := Next(b, Select(Some(0), U64 - 1)).state;
            && b.sched.ticks == 1 && b.sched.current == 1 && r.sched.tasks[1].state == Blocked
            && Awake(r, Next(r, Tick).state, 1, 3, 0)
  {
    Startup(s);
    StartupClock(s);
    InitialQueue(s);
    WrappedFrom(Run(s, STARTUP));
    hide *;
  }

  lemma InitialQueue(s: State)
    requires Initial(s)
    ensures s.input.waiter == None && s.input.read == s.input.write
  {
  }

  lemma WrappedFrom(s: State)
    requires Opened(s) && s.input.waiter == None && s.input.read == s.input.write && s.sched.ticks == 0
    ensures var b := Next(s, Tick).state; var r := Next(b, Select(Some(0), U64 - 1)).state;
            && b.sched.ticks == 1 && b.sched.current == 1 && r.sched.tasks[1].state == Blocked
            && Awake(r, Next(r, Tick).state, 1, 3, 0)
  {
    TickOpened(s);
    Clock(s, Tick);
    hide Opened, Next, Ring, Inv;
    WrappedSelect(Next(s, Tick).state);
  }

  lemma WrappedSelect(b: State)
    requires Inv(b) && b.sched.current == 1 && b.channels[0].active && !b.channels[0].waiter.active
    requires b.channels[0].count == 0 && b.input.waiter == None && b.input.read == b.input.write && b.sched.ticks == 1
    ensures var r := Next(b, Select(Some(0), U64 - 1)).state;
            r.sched.tasks[1].state == Blocked && Awake(r, Next(r, Tick).state, 1, 3, 0)
  {
    SelectLaw(b, 0, U64 - 1);
    HeadIs(b.channels[0]);
    InvShape(b);
    hide Next, Ring, Inv;
    SelectSleeps(b, 0, U64 - 1);
    AtOnce(Next(b, Select(Some(0), U64 - 1)).state);
  }

  lemma AtOnce(r: State)
    requires AsleepFor(r, 0, 1, 1, U64 - 1)
    ensures Awake(r, Next(r, Tick).state, 1, 3, 0)
  {
    assert Shape(r);
    assert Run(r, []) == r && LeftAlone(r, [], 0, 1) && Ticks([]) == 0;
    hide AsleepFor, Next, LeftAlone, Run;
    FirstTickWakes(r, 0, 1, 1, U64 - 1, []);
  }
}
