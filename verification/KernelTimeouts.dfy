/** A select with a timeout, over whole runs: the task sleeps for exactly as many ticks as it asked
    for, unless the sum of the clock and the delay wraps. */
module KernelTimeouts {
  import opened KernelState
  import opened KernelInvariants
  import opened KernelSteps
  import opened KernelPipes
  import opened KernelWakes
  import opened KernelFairness
  import opened KernelLaws
  import opened Options

  // ----- the clock -----

  lemma CleanupClock(s: State, pid: nat)
    requires Inv(s)
    ensures Cleanup(s, pid).sched.ticks == s.sched.ticks
  {
    CleanupInv(s, pid);
  }

  lemma RescheduleClock(s: Sched)
    requires SchedShape(s)
    ensures Reschedule(s).ticks == s.ticks && BlockCurrent(s).ticks == s.ticks
    ensures forall delay, result :: BlockCurrentTimeout(s, delay, result).ticks == s.ticks
  {
  }

  lemma EndClock(s: State, pid: nat, code: nat)
    requires Inv(s) && 0 < pid < PROCESS_LIMIT && s.sched.tasks[pid].state != Unused && s.sched.tasks[pid].state != Exited
    ensures WakeParent(s.(sched := Died(s.sched, pid, code)), pid).sched.ticks == s.sched.ticks
  {
    DieInv(s, pid, code);
    WakeParentInv(s.(sched := Died(s.sched, pid, code)), pid);
  }

  lemma ExitClock(s: State, code: nat)
    requires Inv(s) && s.sched.current != 0
    ensures SysExit(s, code).sched.ticks == s.sched.ticks
  {
    CleanupClock(s, s.sched.current);
    CleanupWhole(s, s.sched.current);
    EndClock(Cleanup(s, s.sched.current), s.sched.current, code);
    hide Inv, Cleanup, WakeParent;
  }

  lemma TerminateClock(s: State, target: nat, code: nat)
    requires Inv(s)
    ensures Terminate(s, target, code).sched.ticks == s.sched.ticks
    ensures SysTerminate(s, target, code).sched.ticks == s.sched.ticks
  {
    CleanupClock(s, target);
    CleanupWhole(s, target);
    if CanTerminate(s.sched, target) { EndClock(s, target, code); }
    if CanTerminate(Cleanup(s, target).sched, target) { EndClock(Cleanup(s, target), target, code); }
    hide Inv, Cleanup, WakeParent, Died;
  }

  lemma ReapClock(s: State, parent: nat, child: nat)
    requires Inv(s)
    ensures Reap(s, parent, child).sched.ticks == s.sched.ticks
  {
    CleanupClock(s, child);
    hide Inv, Cleanup;
  }

  lemma TimeoutsClock(s: State)
    requires Inv(s)
    ensures OnTick(s).sched.ticks == (s.sched.ticks + 1) % U64
  {
    TickStart(s);
    var s0 := s.(sched := s.sched.(ticks := (s.sched.ticks + 1) % U64));
    TimeoutsInv(s0, PROCESS_LIMIT);
    hide Inv, TimeoutsTo;
  }

  lemma CallClock(s: State, step: Step)
    requires Inv(s) && (step.Send? || step.Recv? || step.Select? || step.Yield? || step.OpenChannel?)
    ensures Next(s, step).state.sched.ticks == s.sched.ticks
  {
    InvShape(s);
    RescheduleClock(s.sched);
    hide Inv, Reschedule, BlockCurrent, BlockCurrentTimeout, RingOk, InputOk;
  }

  lemma OtherClock(s: State, step: Step)
    requires Inv(s) && (step.Event? || step.Create? || step.Start? || step.Compute?)
    ensures Next(s, step).state.sched.ticks == s.sched.ticks
  {
  }

  lemma WaitClock(s: State, child: nat)
    requires Inv(s)
    ensures OnWait(s, child).sched.ticks == s.sched.ticks
  {
    ReapClock(s, s.sched.current, child);
    hide Inv, Reap;
  }

  /** Only a tick moves the clock. */
  lemma Clock(s: State, step: Step)
    requires Inv(s)
    ensures Next(s, step).state.sched.ticks == if step.Tick? then (s.sched.ticks + 1) % U64 else s.sched.ticks
  {
    InvShape(s);
    hide Inv, Shape, Reap, OnTick, SysExit, SysTerminate, Terminate, OnWait;
    if step.Send? || step.Recv? || step.Select? || step.Yield? || step.OpenChannel? {
      CallClock(s, step);
    } else if step.Event? || step.Create? || step.Start? || step.Compute? {
      OtherClock(s, step);
    } else if !(UserCall(step) && s.sched.current == 0) {
      match step
      case Exit(code) => ExitClock(s, code);
      case TerminateCall(target, code) => TerminateClock(s, target, code);
      case Kill(target, code) => TerminateClock(s, target, code);
      case Wait(child) => WaitClock(s, child);
      case ReapStep(parent, child) => ReapClock(s, parent, child);
      case Tick => TimeoutsClock(s);
    }
  }

  // ----- a timed sleeper over a run -----

  /** `p` sleeps in a select on channel `c` and its timeout gives 3. */
  ghost predicate Dozes(s: State, c: nat, p: nat) {
    && Asleep(s, c, p, false) && s.channels[c].waiter.multiplex
    && s.sched.tasks[p].timedWait && s.sched.tasks[p].timeoutResult == 3
  }

  /** No step but a tick wakes or ends `p`. */
  ghost predicate LeftAlone(s: State, steps: seq<Step>, c: nat, p: nat)
    requires Shape(s) && c < CHANNEL_LIMIT && p < PROCESS_LIMIT
    decreases |steps|
  {
    |steps| > 0 ==>
      var k := |steps| - 1;
      var r := Run(s, steps[..k]);
      LeftAlone(s, steps[..k], c, p) && (steps[k].Tick? || !(Wakes(r, steps[k], c, p, false) || Kills(r, steps[k], p)))
  }

  /** The clock `n` ticks after it showed `now`. */
  function Later(now: nat, n: nat): nat { (now + n) % U64 }

  /** None of the next `n` ticks brings the clock to `wake` or past it. */
  predicate NotDue(now: nat, n: nat, wake: nat) { forall i | 1 <= i <= n :: Later(now, i) < wake }

  lemma DozeStep(s: State, step: Step, c: nat, p: nat)
    requires Inv(s) && Dozes(s, c, p) && !Kills(s, step, p) && (step.Tick? || !Wakes(s, step, c, p, false))
    ensures var r := Next(s, step).state;
            if step.Tick? && s.sched.tasks[p].wakeTick <= (s.sched.ticks + 1) % U64 then Awake(s, r, p, 3, 0)
            else Dozes(r, c, p) && r.sched.tasks[p] == s.sched.tasks[p]
  {
    SleeperFate(s, step, c, p, false);
    SelectNeverStranded(s, step, c);
  }

  /** One step of the run below, at clock `n` ticks after `now`. */
  lemma DozeOn(s: State, step: Step, c: nat, p: nat, now: nat, n: nat)
    requires Inv(s) && Dozes(s, c, p) && s.sched.ticks == Later(now, n)
    requires if step.Tick? then Later(now, n + 1) < s.sched.tasks[p].wakeTick
             else !Wakes(s, step, c, p, false) && !Kills(s, step, p)
    ensures var r := Next(s, step).state;
            && Inv(r) && Dozes(r, c, p) && r.sched.tasks[p] == s.sched.tasks[p]
            && r.sched.ticks == Later(now, n + if step.Tick? then 1 else 0)
  {
    NextInv(s, step);
    DozeStep(s, step, c, p);
    Clock(s, step);
    NextLater(now, n);
    hide Inv, Wakes, Next, Later;
  }

  lemma UnrollDoze(s: State, steps: seq<Step>, c: nat, p: nat, wake: nat)
    requires Shape(s) && c < CHANNEL_LIMIT && p < PROCESS_LIMIT && |steps| > 0
    requires LeftAlone(s, steps, c, p) && NotDue(s.sched.ticks, Ticks(steps), wake)
    ensures var k := |steps| - 1; var r := Run(s, steps[..k]);
            && LeftAlone(s, steps[..k], c, p) && NotDue(s.sched.ticks, Ticks(steps[..k]), wake)
            && Ticks(steps) == Ticks(steps[..k]) + (if steps[k].Tick? then 1 else 0)
            && Run(s, steps) == Next(r, steps[k]).state
            && if steps[k].Tick? then Later(s.sched.ticks, Ticks(steps[..k]) + 1) < wake
               else !Wakes(r, steps[k], c, p, false) && !Kills(r, steps[k], p)
  {
    hide Shape, Wakes, Kills, Next, Later;
  }

  lemma {:induction false} DozeRun(s: State, steps: seq<Step>, c: nat, p: nat)
    requires Inv(s) && Dozes(s, c, p) && LeftAlone(s, steps, c, p) && s.sched.ticks < U64
    requires NotDue(s.sched.ticks, Ticks(steps), s.sched.tasks[p].wakeTick)
    ensures var r := Run(s, steps);
            && Inv(r) && Dozes(r, c, p) && r.sched.tasks[p] == s.sched.tasks[p]
            && r.sched.ticks == Later(s.sched.ticks, Ticks(steps))
    decreases |steps|, 1
  {
    if |steps| == 0 {
      assert steps == [];
    } else {
      DozeLast(s, steps, c, p);
    }
    hide Inv, Dozes, Wakes, Kills, Next;
  }

  lemma DozeLast(s: State, steps: seq<Step>, c: nat, p: nat)
    requires Inv(s) && Dozes(s, c, p) && LeftAlone(s, steps, c, p) && s.sched.ticks < U64 && |steps| > 0
    requires NotDue(s.sched.ticks, Ticks(steps), s.sched.tasks[p].wakeTick)
    ensures var r := Run(s, steps);
            && Inv(r) && Dozes(r, c, p) && r.sched.tasks[p] == s.sched.tasks[p]
            && r.sched.ticks == Later(s.sched.ticks, Ticks(steps))
    decreases |steps|, 0
  {
    InvShape(s);
    assert c < CHANNEL_LIMIT && p < PROCESS_LIMIT && |s.sched.tasks| == PROCESS_LIMIT;
    hide *;
    var k := |steps| - 1;
    UnrollDoze(s, steps, c, p, s.sched.tasks[p].wakeTick);
    DozeRun(s, steps[..k], c, p);
    DozeOn(Run(s, steps[..k]), steps[k], c, p, s.sched.ticks, Ticks(steps[..k]));
  }

  lemma NextLater(now: nat, n: nat)
    ensures (Later(now, n) + 1) % U64 == Later(now, n + 1)
  {
  }

  // ----- when the timeout comes -----

  /** The clock does not wrap between now and the timeout, or does so at once. */
  predicate OnTime(now: nat, delay: nat) { now + delay < U64 || now == U64 - 1 }

  lemma DueAt(now: nat, delay: nat, n: nat)
    requires now < U64 && 0 < delay < U64 && OnTime(now, delay) && 1 <= n <= delay
    ensures Later(now, delay) <= Later(now, n) <==> n == delay
  {
  }

  lemma DueAtOnce(now: nat, delay: nat)
    requires now < U64 && 0 < delay < U64 && !OnTime(now, delay)
    ensures Later(now, delay) <= Later(now, 1) && delay > 1
  {
  }

  /** `p` went to sleep on channel `c` when the clock showed `now`, for `delay` ticks. */
  ghost predicate AsleepFor(r: State, c: nat, p: nat, now: nat, delay: nat) {
    && now < U64 && 0 < delay < U64 && Inv(r) && Dozes(r, c, p) && r.sched.ticks == now
    && r.sched.tasks[p].wakeTick == Later(now, delay)
  }

  /** That is what a select with a timeout leaves whenever it puts its caller to sleep. */
  lemma SelectSleeps(s: State, c: nat, delay: nat)
    requires Inv(s) && s.sched.current != 0 && c < CHANNEL_LIMIT && s.sched.ticks < U64 && 0 < delay < U64
    requires Next(s, Select(Some(c), delay)).state.sched.tasks[s.sched.current].state == Blocked
    ensures AsleepFor(Next(s, Select(Some(c), delay)).state, c, s.sched.current, s.sched.ticks, delay)
  {
    StillRuns(s, c, delay);
    NextInv(s, Select(Some(c), delay));
    Clock(s, Select(Some(c), delay));
    hide Inv, Next;
  }

  /** The caller runs on in every other case. */
  lemma StillRuns(s: State, c: nat, delay: nat)
    requires Inv(s) && s.sched.current != 0 && c < CHANNEL_LIMIT
    requires Next(s, Select(Some(c), delay)).state.sched.tasks[s.sched.current].state == Blocked
    ensures Selects(s, Next(s, Select(Some(c), delay)).state, c, delay)
  {
    assert SenderOk(s, s.channels[c]);
    SelectLaw(s, c, delay);
    hide Next, Ring;
  }

  lemma NotDueYet(now: nat, delay: nat, n: nat)
    requires now < U64 && 0 < delay < U64 && ((OnTime(now, delay) && n < delay) || n == 0)
    ensures NotDue(now, n, Later(now, delay))
  {
    forall i | 1 <= i <= n ensures Later(now, i) < Later(now, delay) { DueAt(now, delay, i); }
  }

  /** The task after some undisturbed steps. */
  lemma StillAsleep(s: State, c: nat, p: nat, now: nat, delay: nat, steps: seq<Step>)
    requires AsleepFor(s, c, p, now, delay) && LeftAlone(s, steps, c, p)
    requires (OnTime(now, delay) && Ticks(steps) < delay) || Ticks(steps) == 0
    ensures var r := Run(s, steps);
            && Inv(r) && Dozes(r, c, p) && r.sched.tasks[p] == s.sched.tasks[p]
            && r.sched.ticks == Later(now, Ticks(steps)) && r.sched.tasks[p].wakeTick == Later(now, delay)
  {
    NotDueYet(now, delay, Ticks(steps));
    hide Inv, Dozes, Next, LeftAlone;
    DozeRun(s, steps, c, p);
  }

  /** The next tick after `n` others. */
  lemma AtTick(s: State, c: nat, p: nat, now: nat, delay: nat, n: nat)
    requires Inv(s) && Dozes(s, c, p) && s.sched.ticks == Later(now, n) && s.sched.tasks[p].wakeTick == Later(now, delay)
    ensures if Later(now, delay) <= Later(now, n + 1) then Awake(s, Next(s, Tick).state, p, 3, 0)
            else Dozes(Next(s, Tick).state, c, p)
  {
    hide *;
    NextLater(now, n);
    NotKilledByTick(s, p);
    DozeStep(s, Tick, c, p);
  }

  lemma NotKilledByTick(s: State, p: nat)
    ensures !Kills(s, Tick, p)
  {
  }

  /** Until `delay` ticks have passed the task is left exactly as it fell asleep, and the tick after
      `delay` - 1 others wakes it with result 3. */
  lemma SleepsForDelay(s: State, c: nat, p: nat, now: nat, delay: nat, steps: seq<Step>)
    requires AsleepFor(s, c, p, now, delay) && LeftAlone(s, steps, c, p) && OnTime(now, delay) && Ticks(steps) < delay
    ensures Run(s, steps).sched.tasks[p] == s.sched.tasks[p] && Dozes(Run(s, steps), c, p)
    ensures Ticks(steps) == delay - 1 ==> Awake(Run(s, steps), Next(Run(s, steps), Tick).state, p, 3, 0)
  {
    hide Inv, Dozes, Next, Awake, LeftAlone;
    InvShape(s);
    StillAsleep(s, c, p, now, delay, steps);
    AtTick(Run(s, steps), c, p, now, delay, Ticks(steps));
  }

  /** The first tick wakes it exactly when it asked for one tick or the sum wraps: a delay that
      carries past the end of the 64-bit clock is no delay at all. */
  lemma FirstTickWakes(s: State, c: nat, p: nat, now: nat, delay: nat, steps: seq<Step>)
    requires AsleepFor(s, c, p, now, delay) && LeftAlone(s, steps, c, p) && Ticks(steps) == 0
    ensures Awake(Run(s, steps), Next(Run(s, steps), Tick).state, p, 3, 0) <==> delay == 1 || !OnTime(now, delay)
  {
    hide Inv, Dozes, Next, Awake, LeftAlone, Run;
    InvShape(s);
    StillAsleep(s, c, p, now, delay, steps);
    AtTick(Run(s, steps), c, p, now, delay, 0);
    AwakeOrDozing(Run(s, steps), Next(Run(s, steps), Tick).state, c, p);
    if OnTime(now, delay) { DueAt(now, delay, 1); } else { DueAtOnce(now, delay); }
  }

  lemma AwakeOrDozing(s: State, r: State, c: nat, p: nat)
    ensures Dozes(r, c, p) ==> !Awake(s, r, p, 3, 0)
  {
  }
}
