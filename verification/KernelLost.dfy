/** A receiver stranded by a message longer than its buffer: it is in no registry, so nothing
    short of its own end ever changes it again. */
module KernelLost {
  import opened KernelState
  import opened KernelInvariants
  import opened KernelSteps
  import opened KernelPipes
  import opened KernelWakes
  import opened KernelParents
  import opened Options

  /** Asleep for IPC, with nobody left who knows. */
  ghost predicate Lost(s: State, p: nat) {
    && Shape(s) && 0 < p < PROCESS_LIMIT && s.sched.tasks[p].state == Blocked
    && s.sched.tasks[p].waitingFor == None && !s.sched.tasks[p].timedWait && !Registered(s, p)
  }

  /** Still lost, and untouched. */
  ghost predicate StillLost(s: State, r: State, p: nat) {
    Lost(s, p) && Lost(r, p) && r.sched.tasks[p] == s.sched.tasks[p]
  }

  lemma LostTrans(a: State, b: State, c: State, p: nat)
    requires StillLost(a, b, p) && StillLost(b, c, p)
    ensures StillLost(a, c, p)
  {
  }

  /** No registry gains the task, and the task is left alone. */
  lemma LostFrame(s: State, r: State, p: nat)
    requires Lost(s, p) && Shape(r) && r.sched.tasks[p] == s.sched.tasks[p]
    requires r.input.waiter == Some(p) ==> s.input.waiter == Some(p)
    requires forall c | 0 <= c < CHANNEL_LIMIT :: NotGained(s.channels[c], r.channels[c], p)
    ensures StillLost(s, r, p)
  {
    forall c | 0 <= c < CHANNEL_LIMIT
      ensures !(r.channels[c].waiter.active && r.channels[c].waiter.pid == p)
      ensures !(r.channels[c].sender.active && r.channels[c].sender.pid == p)
    {
      assert NotGained(s.channels[c], r.channels[c], p);
    }
  }

  predicate NotGained(c: Channel, d: Channel, p: nat) {
    && (d.waiter.active && d.waiter.pid == p ==> c.waiter.active && c.waiter.pid == p)
    && (d.sender.active && d.sender.pid == p ==> c.sender.active && c.sender.pid == p)
  }

  lemma LostSched(s: State, r: Sched, p: nat)
    requires Lost(s, p) && SchedShape(r) && r.tasks[p] == s.sched.tasks[p]
    ensures StillLost(s, s.(sched := r), p)
  {
    LostFrame(s, s.(sched := r), p);
  }

  lemma RescheduleLost(s: Sched, p: nat)
    requires SchedShape(s) && 0 < p < PROCESS_LIMIT && s.tasks[p].state == Blocked
    ensures Reschedule(s).tasks[p] == s.tasks[p]
  {
    NextReadySpec(s.tasks, s.current);
    var t := s.tasks[s.current];
    var s1 := if t.state == Running then SetTask(s, s.current, t.(state := Ready)) else s;
    NextReadySpec(s1.tasks, s1.current);
  }

  lemma BlockLost(s: Sched, p: nat, delay: nat, result: nat)
    requires SchedInv(s) && 0 < p < PROCESS_LIMIT && s.tasks[p].state == Blocked
    ensures BlockCurrent(s).tasks[p] == s.tasks[p] && BlockCurrentTimeout(s, delay, result).tasks[p] == s.tasks[p]
  {
    if s.current != 0 {
      RescheduleLost(SetTask(s, s.current, s.tasks[s.current].(state := Blocked, waitingFor := None)), p);
      RescheduleLost(SetTask(s, s.current, TimedSleep(s.tasks[s.current], s.ticks, delay, result)), p);
    }
    hide Reschedule;
  }

  // ----- cleanup -----

  lemma CleanRoundLost(s: State, pid: nat, i: nat, p: nat)
    requires Lost(s, p) && i < CHANNEL_LIMIT && pid != p
    ensures StillLost(s, CleanChannel(s, pid, i), p)
  {
    var s1 := s.(channels := s.channels[i := Unparked(Muted(s.channels[i], pid), pid)]);
    assert !(s1.channels[i].waiter.active && s1.channels[i].waiter.pid == p);
    assert !(s1.channels[i].sender.active && s1.channels[i].sender.pid == p);
    FailOthersTask(s1, i, p);
    var r := CleanChannel(s, pid, i);
    forall c | 0 <= c < CHANNEL_LIMIT ensures NotGained(s.channels[c], r.channels[c], p) {
    }
    hide RingOk, Lost, StillLost, Registered;
    LostFrame(s, r, p);
  }

  lemma FailOthersTask(s: State, i: nat, p: nat)
    requires Shape(s) && i < CHANNEL_LIMIT && p < PROCESS_LIMIT
    requires s.channels[i].waiter.active ==> s.channels[i].waiter.pid != p
    requires s.channels[i].sender.active ==> s.channels[i].sender.pid != p
    ensures FailSender(FailWaiter(s, i), i).sched.tasks[p] == s.sched.tasks[p]
  {
    assert FailWaiter(s, i).sched.tasks[p] == s.sched.tasks[p];
  }

  lemma CleanupToLost(s: State, pid: nat, n: nat, p: nat)
    requires Lost(s, p) && n <= CHANNEL_LIMIT && pid != p
    ensures StillLost(s, CleanupTo(s, pid, n), p)
  {
    if n > 0 {
      CleanupToLost(s, pid, n - 1, p);
      CleanRoundLost(CleanupTo(s, pid, n - 1), pid, n - 1, p);
      hide Lost, StillLost, CleanChannel;
      LostTrans(s, CleanupTo(s, pid, n - 1), CleanupTo(s, pid, n), p);
    }
  }

  lemma CleanupLost(s: State, pid: nat, p: nat)
    requires Lost(s, p) && pid != p
    ensures StillLost(s, Cleanup(s, pid), p)
  {
    var s0 := s.(input := CancelInputWait(s.input, pid));
    LostFrame(s, s0, p);
    CleanupToLost(s0, pid, CHANNEL_LIMIT, p);
    LostTrans(s, s0, Cleanup(s, pid), p);
  }

  lemma ReleaseLost(s: State, child: nat, p: nat)
    requires Lost(s, p) && 0 < child < PROCESS_LIMIT && child != p
    ensures StillLost(s, ReleaseSlot(s, child), p)
  {
    CleanupLost(s, child, p);
    var s1 := Cleanup(s, child);
    LostSched(s1, SetTask(s1.sched, child, CLEARED), p);
    hide Cleanup, Lost;
  }

  /** Ending another task: even its parent's wake is not for the lost one, which waits for nobody. */
  lemma WakeParentLost(s: State, pid: nat, code: nat, p: nat)
    requires Lost(s, p) && 0 < pid < PROCESS_LIMIT && pid != p
    ensures StillLost(s, WakeParent(s.(sched := Died(s.sched, pid, code)), pid), p)
  {
    var s1 := s.(sched := Died(s.sched, pid, code));
    LostSched(s, s1.sched, p);
    if ParentWaits(s1.sched, pid) {
      var q := s1.sched.tasks[pid].parent;
      assert q != p;
      var t := s1.sched.tasks[q].(result := pid, detail := s1.sched.tasks[pid].exitCode,
                                  waitingFor := None, state := Ready);
      var s2 := s1.(sched := SetTask(s1.sched, q, t));
      LostSched(s1, s2.sched, p);
      ReleaseLost(s2, pid, p);
      LostTrans(s1, s2, ReleaseSlot(s2, pid), p);
      LostTrans(s, s1, ReleaseSlot(s2, pid), p);
    }
  }

  // ----- the other steps -----

  lemma TimeoutsLost(s: State, n: nat, p: nat)
    requires Lost(s, p) && 1 <= n <= PROCESS_LIMIT
    ensures StillLost(s, TimeoutsTo(s, n), p)
  {
    if n > 1 {
      TimeoutsLost(s, n - 1, p);
      var r := TimeoutsTo(s, n - 1);
      TimeoutLost(r, n - 1, p);
      hide Lost, StillLost, TimeoutOne;
      LostTrans(s, r, TimeoutsTo(s, n), p);
    }
  }

  lemma TimeoutLost(s: State, pid: nat, p: nat)
    requires Lost(s, p) && 0 < pid < PROCESS_LIMIT
    ensures StillLost(s, TimeoutOne(s, pid), p)
  {
    var r := TimeoutOne(s, pid);
    forall c | 0 <= c < CHANNEL_LIMIT ensures NotGained(s.channels[c], r.channels[c], p) {
    }
    assert r.sched.tasks[p] == s.sched.tasks[p];
    LostFrame(s, r, p);
  }

  lemma TickLost(s: State, p: nat)
    requires Inv(s) && Lost(s, p)
    ensures StillLost(s, OnTick(s), p)
  {
    TickStart(s);
    var s0 := s.(sched := s.sched.(ticks := (s.sched.ticks + 1) % U64));
    LostSched(s, s0.sched, p);
    TimeoutsLost(s0, PROCESS_LIMIT, p);
    var s1 := TimeoutsTo(s0, PROCESS_LIMIT);
    TimeoutsInv(s0, PROCESS_LIMIT);
    ChargeLost(s1.sched, p);
    LostSched(s1, ChargeTick(s1.sched), p);
    LostTrans(s, s0, s1, p);
    LostTrans(s, s1, OnTick(s), p);
  }

  lemma ChargeLost(s: Sched, p: nat)
    requires SchedInv(s) && 0 < p < PROCESS_LIMIT && s.tasks[p].state == Blocked
    ensures ChargeTick(s).tasks[p] == s.tasks[p]
  {
    if s.usersRunning && s.current != 0 {
      RescheduleLost(SetTask(s, s.current, s.tasks[s.current].(slice := s.tasks[s.current].slice + 1)), p);
    }
    hide Reschedule;
  }

  lemma SendLost(s: State, chan: Option<nat>, data: seq<bv8>, p: nat)
    requires Inv(s) && Lost(s, p) && s.sched.current != 0
    ensures StillLost(s, SysSend(s, chan, data).state, p)
  {
    var r := SysSend(s, chan, data).state;
    BlockLost(s.sched, p, 0, 0);
    assert p != s.sched.current;
    assert forall c | 0 <= c < CHANNEL_LIMIT :: !(s.channels[c].waiter.active && s.channels[c].waiter.pid == p);
    hide RegistryX, SchedInv, BlockCurrent, RingOk, Registered;
    assert r.sched.tasks[p] == s.sched.tasks[p];
    forall c | 0 <= c < CHANNEL_LIMIT ensures NotGained(s.channels[c], r.channels[c], p) {
    }
    LostFrame(s, r, p);
  }

  lemma ReceiveLost(s: State, chan: Option<nat>, capacity: nat, p: nat)
    requires Lost(s, p)
    ensures StillLost(s, Receive(s, chan, capacity).state, p)
  {
    var r := Receive(s, chan, capacity).state;
    assert forall c | 0 <= c < CHANNEL_LIMIT :: !(s.channels[c].sender.active && s.channels[c].sender.pid == p);
    hide RingOk, Registered;
    assert r.sched.tasks[p] == s.sched.tasks[p];
    forall c | 0 <= c < CHANNEL_LIMIT ensures NotGained(s.channels[c], r.channels[c], p) {
    }
    LostFrame(s, r, p);
  }

  lemma RegisterLost(s: State, chan: nat, capacity: nat, multiplex: bool, p: nat)
    requires Inv(s) && Lost(s, p) && chan < CHANNEL_LIMIT && s.channels[chan].active
    ensures StillLost(s, Register(s, s.sched.current, chan, capacity, multiplex), p)
  {
    var r := Register(s, s.sched.current, chan, capacity, multiplex);
    assert p != s.sched.current;
    hide RegistryX, SchedInv, RingOk, Registered;
    forall c | 0 <= c < CHANNEL_LIMIT ensures NotGained(s.channels[c], r.channels[c], p) {
    }
    LostFrame(s, r, p);
  }

  lemma CancelLost(s: State, pid: nat, p: nat)
    requires Lost(s, p)
    ensures StillLost(s, s.(channels := CancelChannelWait(s.channels, pid)), p)
  {
    var r := s.(channels := CancelChannelWait(s.channels, pid));
    forall c | 0 <= c < CHANNEL_LIMIT ensures NotGained(s.channels[c], r.channels[c], p) {
    }
    assert Shape(r);
    LostFrame(s, r, p);
  }

  lemma RecvLost(s: State, chan: Option<nat>, capacity: nat, poll: bool, p: nat)
    requires Inv(s) && Lost(s, p) && s.sched.current != 0
    ensures StillLost(s, SysReceive(s, chan, capacity, poll).state, p)
  {
    LostFrame(s, s, p);
    ReceiveLost(s, chan, capacity, p);
    BlockLost(s.sched, p, 0, 0);
    if CanWait(s, chan, capacity) {
      RegisterLost(s, chan.value, capacity, false, p);
      var s1 := Register(s, s.sched.current, chan.value, capacity, false);
      LostSched(s1, BlockCurrent(s1.sched), p);
      LostTrans(s, s1, s1.(sched := BlockCurrent(s1.sched)), p);
    }
    hide Inv, Lost, StillLost, Receive, Register, BlockCurrent;
  }

  lemma SelectLost(s: State, chan: Option<nat>, delay: nat, p: nat)
    requires Inv(s) && Lost(s, p) && s.sched.current != 0
    ensures StillLost(s, SysSelect(s, chan, delay).state, p)
  {
    ReceiveLost(s, chan, MESSAGE_MAX, p);
    LostFrame(s, s.(input := s.input.(read := (s.input.read + 1) % INPUT_CAPACITY)), p);
    CancelLost(s, s.sched.current, p);
    if CanWait(s, chan, MESSAGE_MAX) { SelectWaitLost(s, chan.value, delay, p); }
    hide Inv, Lost, StillLost, Receive, Register, BlockCurrent, BlockCurrentTimeout, CancelChannelWait;
  }

  lemma SelectWaitLost(s: State, chan: nat, delay: nat, p: nat)
    requires Inv(s) && Lost(s, p) && s.sched.current != 0 && chan < CHANNEL_LIMIT && s.channels[chan].active
    ensures var s1 := Register(s, s.sched.current, chan, MESSAGE_MAX, true);
            && StillLost(s, s1.(channels := CancelChannelWait(s1.channels, s.sched.current)), p)
            && var s2 := s1.(input := s.input.(waiter := Some(s.sched.current)));
               StillLost(s, s2.(sched := if delay != 0 then BlockCurrentTimeout(s2.sched, delay, 3)
                                         else BlockCurrent(s2.sched)), p)
  {
    var pid := s.sched.current;
    assert p != pid;
    RegisterLost(s, chan, MESSAGE_MAX, true, p);
    BlockLost(s.sched, p, delay, 3);
    hide Inv;
    var s1 := Register(s, pid, chan, MESSAGE_MAX, true);
    CancelLost(s1, pid, p);
    LostTrans(s, s1, s1.(channels := CancelChannelWait(s1.channels, pid)), p);
    var s2 := s1.(input := s.input.(waiter := Some(pid)));
    LostFrame(s1, s2, p);
    LostTrans(s, s1, s2, p);
    var b := if delay != 0 then BlockCurrentTimeout(s2.sched, delay, 3) else BlockCurrent(s2.sched);
    LostSched(s2, b, p);
    LostTrans(s, s2, s2.(sched := b), p);
  }

  lemma PublishLost(s: State, e: Event, p: nat)
    requires Lost(s, p)
    ensures StillLost(s, Publish(s, e), p)
  {
    var r := Publish(s, e);
    forall c | 0 <= c < CHANNEL_LIMIT ensures NotGained(s.channels[c], r.channels[c], p) {
    }
    assert r.sched.tasks[p] == s.sched.tasks[p];
    LostFrame(s, r, p);
  }

  lemma OpenLost(s: State, owner: nat, name: seq<char>, granted: bool, p: nat)
    requires Lost(s, p)
    ensures StillLost(s, CreateChannel(s, owner, name, granted), p)
  {
    var r := CreateChannel(s, owner, name, granted);
    forall c | 0 <= c < CHANNEL_LIMIT ensures NotGained(s.channels[c], r.channels[c], p) {
    }
    LostFrame(s, r, p);
  }

  lemma OnExitLost(s: State, code: nat, p: nat)
    requires Inv(s) && Lost(s, p) && s.sched.current != 0
    ensures StillLost(s, OnExit(s, code), p)
  {
    var pid := s.sched.current;
    assert pid != p;
    WakeParentLost(s, pid, code, p);
    var s1 := WakeParent(s.(sched := Died(s.sched, pid, code)), pid);
    NextReadySpec(s1.sched.tasks, s1.sched.current);
    LostSched(s1, OnExit(s, code).sched, p);
    LostTrans(s, s1, OnExit(s, code), p);
  }

  lemma OnWaitLost(s: State, child: nat, p: nat)
    requires Inv(s) && Lost(s, p) && s.sched.current != 0
    ensures StillLost(s, OnWait(s, child), p)
  {
    var pid := s.sched.current;
    assert pid != p;
    LostFrame(s, s, p);
    if CanReap(s.sched, pid, child) {
      ReleaseLost(s, child, p);
    } else if OnWait(s, child) != s {
      var s1 := SetTask(s.sched, pid, s.sched.tasks[pid].(state := Blocked, waitingFor := Some(child)));
      RescheduleLost(s1, p);
      LostSched(s, Reschedule(s1), p);
    }
    hide Inv, Lost, StillLost, Reschedule, ReleaseSlot;
  }

  lemma SchedLost(s: State, step: Step, p: nat)
    requires Inv(s) && Lost(s, p) && (step.Create? || step.Start? || step.Compute? || step.Yield?)
    ensures StillLost(s, Next(s, step).state, p)
  {
    LostFrame(s, s, p);
    var r := Next(s, step).state;
    SchedOnly(s, step, p);
    hide *;
    LostSched(s, r.sched, p);
  }

  lemma SchedOnly(s: State, step: Step, p: nat)
    requires Inv(s) && 0 < p < PROCESS_LIMIT && s.sched.tasks[p].state == Blocked
    requires step.Create? || step.Start? || step.Compute? || step.Yield?
    ensures var r := Next(s, step).state;
            r == s.(sched := r.sched) && SchedShape(r.sched) && r.sched.tasks[p] == s.sched.tasks[p]
  {
    assert Shape(s) && SchedShape(s.sched) && s.sched.tasks[0].state != Blocked;
    if step.Create? { CreateOnly(s.sched, step.parent, p); }
    StartOnly(s.sched, p);
    RescheduleLost(s.sched, p);
    hide Inv, RegistryX, Reschedule, RingOk, CreateUser, StartUsers;
  }

  lemma CreateOnly(s: Sched, parent: nat, p: nat)
    requires SchedShape(s) && 0 < p < PROCESS_LIMIT && s.tasks[p].state == Blocked
    ensures CreateUser(s, parent).tasks[p] == s.tasks[p]
  {
    FirstUnusedSpec(s.tasks, 1);
  }

  lemma StartOnly(s: Sched, p: nat)
    requires SchedShape(s) && 0 < p < PROCESS_LIMIT && s.tasks[p].state == Blocked
    ensures StartUsers(s).tasks[p] == s.tasks[p]
  {
    NextReadySpec(s.tasks, 0);
  }

  lemma EndsLost(s: State, step: Step, p: nat)
    requires Inv(s) && Lost(s, p) && !(UserCall(step) && s.sched.current == 0) && Ends(s.sched, step, p) == None
    requires step.Exit? || step.TerminateCall? || step.Kill? || step.ReapStep?
    ensures StillLost(s, Next(s, step).state, p)
  {
    LostFrame(s, s, p);
    match step
    case Exit(code) =>
      CleanupLost(s, s.sched.current, p);
      CleanupWhole(s, s.sched.current);
      OnExitLost(Cleanup(s, s.sched.current), code, p);
      LostTrans(s, Cleanup(s, s.sched.current), SysExit(s, code), p);
    case TerminateCall(target, code) =>
      CleanupLost(s, target, p);
      CleanupWhole(s, target);
      TerminateLost(Cleanup(s, target), target, code, p);
      LostTrans(s, Cleanup(s, target), SysTerminate(s, target, code), p);
    case Kill(target, code) => TerminateLost(s, target, code, p);
    case ReapStep(parent, child) => if CanReap(s.sched, parent, child) { ReleaseLost(s, child, p); }
  }

  lemma TerminateLost(s: State, target: nat, code: nat, p: nat)
    requires Lost(s, p) && target != p
    ensures StillLost(s, Terminate(s, target, code), p)
  {
    LostFrame(s, s, p);
    if CanTerminate(s.sched, target) { WakeParentLost(s, target, code, p); }
    hide WakeParent;
  }

  /** Nothing but its own end touches a lost task. */
  lemma LostForGood(s: State, step: Step, p: nat)
    requires Inv(s) && Lost(s, p) && Ends(s.sched, step, p) == None
    ensures StillLost(s, Next(s, step).state, p)
  {
    LostFrame(s, s, p);
    if !(UserCall(step) && s.sched.current == 0) {
      match step
      case Send(chan, data) => SendLost(s, chan, data, p);
      case Recv(chan, capacity, poll) => RecvLost(s, chan, capacity, poll, p);
      case Select(chan, delay) => SelectLost(s, chan, delay, p);
      case Wait(child) => OnWaitLost(s, child, p);
      case OpenChannel(name, granted) => OpenLost(s, s.sched.current, name, granted, p);
      case Tick => TickLost(s, p);
      case Event(e) => PublishLost(s, e, p);
      case Exit(_) => EndsLost(s, step, p);
      case TerminateCall(_, _) => EndsLost(s, step, p);
      case Kill(_, _) => EndsLost(s, step, p);
      case ReapStep(_, _) => EndsLost(s, step, p);
      case Create(_) => SchedLost(s, step, p);
      case Start => SchedLost(s, step, p);
      case Yield => SchedLost(s, step, p);
      case Compute(_) => SchedLost(s, step, p);
    }
  }

  /** No step of the run ends the task. */
  ghost predicate Spared(s: State, steps: seq<Step>, p: nat)
    requires Shape(s)
    decreases |steps|
  {
    |steps| > 0 ==>
      var k := |steps| - 1;
      Spared(s, steps[..k], p) && Ends(Run(s, steps[..k]).sched, steps[k], p) == None
  }

  lemma {:induction false} LostRun(s: State, steps: seq<Step>, p: nat)
    requires Inv(s) && Lost(s, p) && Spared(s, steps, p)
    ensures StillLost(s, Run(s, steps), p)
    decreases |steps|
  {
    if |steps| == 0 {
      LostFrame(s, s, p);
    } else {
      var k := |steps| - 1;
      LostRun(s, steps[..k], p);
      RunInv(s, steps[..k]);
      LostForGood(Run(s, steps[..k]), steps[k], p);
      LostTrans(s, Run(s, steps[..k]), Run(s, steps), p);
    }
  }

  /** The hand-off of a message that does not fit is exactly what makes a plain receiver lost, and
      then it sleeps through every run that does not end it. */
  lemma StrandedSleepsOn(s: State, data: seq<bv8>, c: nat, p: nat, steps: seq<Step>)
    requires Inv(s) && Asleep(s, c, p, false) && s.sched.current != 0
    requires s.channels[c].waiter.capacity < |data| <= MESSAGE_MAX
    requires Spared(Next(s, Send(Some(c), data)).state, steps, p)
    ensures var r := Run(Next(s, Send(Some(c), data)).state, steps);
            Lost(r, p) && r.sched.tasks[p] == s.sched.tasks[p]
  {
    var step := Send(Some(c), data);
    var r := Next(s, step).state;
    StrandedIsLost(s, step, c, p);
    NextInv(s, step);
    LostRun(r, steps, p);
  }

  lemma StrandedIsLost(s: State, step: Step, c: nat, p: nat)
    requires Inv(s) && Asleep(s, c, p, false) && Strands(s, step, c, false)
    ensures Lost(Next(s, step).state, p) && Next(s, step).state.sched.tasks[p] == s.sched.tasks[p]
  {
    SleeperFate(s, step, c, p, false);
    AsleepFacts(s, c, p, false);
    assert WaiterOk(s, s.channels[c].waiter, 0);
  }
}
