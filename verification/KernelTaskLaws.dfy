/** Exactly what each entry does to tasks: creation, starting, yielding, the quantum, waiting and
    ending, and who gets the processor next. */
module KernelTaskLaws {
  import opened KernelState
  import opened KernelInvariants
  import opened KernelSteps
  import opened KernelFairness
  import opened KernelParents
  import opened Options

  // ----- who runs next -----

  /** The processor was given away to the ready task at the least cyclic distance, with a fresh
      quantum, or to the idle task when none is ready. */
  ghost predicate HandedOn(s: Sched, r: Sched) {
    && SchedShape(s) && SchedShape(r) && r.dispatches == s.dispatches + 1
    && if r.current == 0 then !r.usersRunning && forall q | 0 < q < PROCESS_LIMIT :: r.tasks[q].state != Ready
       else && r.usersRunning && r.tasks[r.current].state == Running && r.tasks[r.current].slice == 0
            && forall q | 0 < q < PROCESS_LIMIT && r.tasks[q].state == Ready ::
                 Distance(s.current, r.current) <= Distance(s.current, q)
  }

  ghost predicate KeptRunning(s: Sched, r: Sched) {
    r.current == s.current && r.dispatches == s.dispatches && r.usersRunning == s.usersRunning
  }

  lemma FinishHands(m: Sched, how: Ending)
    requires MidSwitch(m) && m.tasks[m.current].state != Ready && how != Stay
    requires how == Leave ==> m.tasks[m.current].state != Running
    ensures HandedOn(m, Finish(m, how))
  {
    var t := m.tasks[m.current];
    var m1 := if how == GiveUp && t.state == Running then SetTask(m, m.current, t.(state := Ready)) else m;
    NextReadySpec(m1.tasks, m1.current);
  }

  /** Every entry of a running user either returns to it or hands the processor on. */
  lemma DispatchLaw(s: State, step: Step)
    requires Inv(s) && s.sched.current != 0
    ensures var r := Next(s, step).state.sched; KeptRunning(s.sched, r) || HandedOn(s.sched, r)
  {
    if step.Create? {
    } else if !step.Start? && !step.Compute? {
      var m, how := Decompose(s, step);
      if how != Stay { FinishHands(m, how); }
      CalmHands(s.sched, m, Next(s, step).state.sched, how);
    }
    hide Inv, HandedOn;
  }

  lemma CalmHands(s: Sched, m: Sched, r: Sched, how: Ending)
    requires Calm(s, m) && r == Finish(m, how) && (how != Stay ==> HandedOn(m, r))
    ensures if how == Stay then KeptRunning(s, r) else HandedOn(s, r)
  {
  }

  /** Yielding always hands the processor on, at the latest back to the caller, which stays ready. */
  lemma YieldLaw(s: State)
    requires Inv(s) && s.sched.current != 0
    ensures var r := Next(s, Yield).state; var pid := s.sched.current;
            && HandedOn(s.sched, r.sched) && r.channels == s.channels && r.input == s.input
            && (r.sched.current != pid ==> r.sched.tasks[pid] == s.sched.tasks[pid].(state := Ready))
            && (forall p | 0 < p < PROCESS_LIMIT && p != pid && p != r.sched.current :: r.sched.tasks[p] == s.sched.tasks[p])
  {
    FinishHands(s.sched, GiveUp);
    var m1 := SetTask(s.sched, s.sched.current, s.sched.tasks[s.sched.current].(state := Ready));
    NextReadySpec(m1.tasks, m1.current);
  }

  // ----- the tick -----

  ghost predicate Charged(s: Sched, r: Sched) {
    && SchedShape(s) && SchedShape(r)
    && var pid := s.current;
       if pid == 0 then KeptRunning(s, r)
       else if s.tasks[pid].slice < 3
       then KeptRunning(s, r) && r.tasks[pid] == s.tasks[pid].(slice := s.tasks[pid].slice + 1)
       else HandedOn(s, r) && (r.current != pid ==> r.tasks[pid].state == Ready)
  }

  lemma ChargeLaw(s: Sched)
    requires SchedInv(s)
    ensures Charged(s, ChargeTick(s))
  {
    if s.current != 0 {
      var t := s.tasks[s.current];
      var m := SetTask(s, s.current, t.(slice := t.slice + 1));
      FinishHands(m, GiveUp);
      var m1 := SetTask(m, m.current, m.tasks[m.current].(state := Ready));
      NextReadySpec(m1.tasks, m1.current);
    }
  }

  /** Waking others first makes no difference to the running user. */
  lemma ChargedAfter(s: Sched, m: Sched, r: Sched)
    requires SchedInv(s) && OnlyWakes(s, m.(ticks := s.ticks)) && Charged(m, r)
    ensures Charged(s, r)
  {
  }

  /** A tick uses up one quarter of the running user's quantum; the fourth hands the processor on. */
  lemma TickLaw(s: State)
    requires Inv(s)
    ensures Charged(s.sched, Next(s, Tick).state.sched)
  {
    TickStart(s);
    var s0 := s.(sched := s.sched.(ticks := (s.sched.ticks + 1) % U64));
    TimeoutsInv(s0, PROCESS_LIMIT);
    var s1 := TimeoutsTo(s0, PROCESS_LIMIT);
    ChargeLaw(s1.sched);
    hide TimeoutsTo, OnTick, Charged, RegistryX, ChargeTick;
    ChargedAfter(s.sched, s1.sched, ChargeTick(s1.sched));
  }

  // ----- creation -----

  lemma {:induction false} FirstUnusedIs(tasks: seq<Task>, pid: nat)
    requires |tasks| == PROCESS_LIMIT && 1 <= pid <= PROCESS_LIMIT
    ensures var r := FirstUnused(tasks, pid);
            if r == 0 then forall p | pid <= p < PROCESS_LIMIT :: tasks[p].state != Unused
            else pid <= r < PROCESS_LIMIT && tasks[r].state == Unused && forall p | pid <= p < r :: tasks[p].state != Unused
    decreases PROCESS_LIMIT - pid
  {
    if pid < PROCESS_LIMIT && tasks[pid].state != Unused { FirstUnusedIs(tasks, pid + 1); }
  }

  ghost predicate LowestUnused(tasks: seq<Task>, pid: nat) {
    0 < pid < |tasks| && tasks[pid].state == Unused && forall p | 0 < p < pid :: tasks[p].state != Unused
  }

  /** A process is created exactly while a slot is unused, in the lowest one, ready and unburdened. */
  lemma CreateLaw(s: State, parent: nat)
    requires Inv(s)
    ensures var r := Next(s, Create(parent)).state;
            if parent < PROCESS_LIMIT && exists pid: nat :: LowestUnused(s.sched.tasks, pid)
            then exists pid: nat :: LowestUnused(s.sched.tasks, pid) && r.channels == s.channels && r.input == s.input
                   && r.sched == s.sched.(tasks := s.sched.tasks[pid := Task(Ready, parent, None, false, 0, 0, 0, 0, 0, 0)],
                                          fpu := s.sched.fpu[pid := s.sched.template])
            else r == s
  {
    FirstUnusedIs(s.sched.tasks, 1);
    var pid := FirstUnused(s.sched.tasks, 1);
    assert pid != 0 ==> LowestUnused(s.sched.tasks, pid);
    assert (exists p: nat :: LowestUnused(s.sched.tasks, p)) ==> pid != 0;
  }

  /** Starting hands the processor to the lowest ready user, once. */
  lemma StartLaw(s: State)
    requires Inv(s)
    ensures var r := Next(s, Start).state;
            if s.sched.current == 0 && exists p | 0 < p < PROCESS_LIMIT :: s.sched.tasks[p].state == Ready
            then && r.sched.usersRunning && s.sched.tasks[r.sched.current].state == Ready
                 && r.sched.current != 0 && r.sched.tasks[r.sched.current].state == Running && r.sched.tasks[0].state == Ready
                 && (forall p | 0 < p < r.sched.current :: s.sched.tasks[p].state != Ready)
                 && (forall p | 0 < p < PROCESS_LIMIT && p != r.sched.current :: r.sched.tasks[p] == s.sched.tasks[p])
                 && r.channels == s.channels && r.input == s.input
            else r == s
  {
    NextReadySpec(s.sched.tasks, 0);
  }

  // ----- cleanup -----

  /** What cleaning up `pid` leaves of a channel. */
  ghost predicate CleanedChannel(c: Channel, d: Channel, pid: nat) {
    if c.active && c.owner == pid
    then !d.active && d.count == 0 && !d.waiter.active && !d.sender.active
    else && d == c.(waiter := d.waiter, sender := d.sender)
         && d.waiter == c.waiter.(active := c.waiter.active && c.waiter.pid != pid)
         && d.sender == c.sender.(active := c.sender.active && c.sender.pid != pid)
  }

  lemma RoundChannels(s: State, pid: nat, i: nat)
    requires Shape(s) && i < CHANNEL_LIMIT
    ensures CleanedChannel(s.channels[i], CleanChannel(s, pid, i).channels[i], pid)
    ensures forall c | 0 <= c < CHANNEL_LIMIT && c != i :: CleanChannel(s, pid, i).channels[c] == s.channels[c]
  {
  }

  lemma {:induction false} CleanupToChannels(s: State, pid: nat, n: nat)
    requires Shape(s) && n <= CHANNEL_LIMIT
    ensures var r := CleanupTo(s, pid, n);
            && (forall c | 0 <= c < n :: CleanedChannel(s.channels[c], r.channels[c], pid))
            && (forall c | n <= c < CHANNEL_LIMIT :: r.channels[c] == s.channels[c])
  {
    if n > 0 {
      CleanupToChannels(s, pid, n - 1);
      RoundChannels(CleanupTo(s, pid, n - 1), pid, n - 1);
      hide CleanedChannel, CleanChannel;
    }
  }

  /** A task that sleeps on no channel of the cleaned process is not touched. */
  ghost predicate Stranger(s: State, pid: nat, p: nat)
    requires Shape(s)
  {
    forall c | 0 <= c < CHANNEL_LIMIT && s.channels[c].active && s.channels[c].owner == pid ::
      && (s.channels[c].waiter.active ==> s.channels[c].waiter.pid == pid || s.channels[c].waiter.pid != p)
      && (s.channels[c].sender.active ==> s.channels[c].sender.pid == pid || s.channels[c].sender.pid != p)
  }

  lemma RoundStranger(s: State, pid: nat, i: nat, p: nat)
    requires Shape(s) && i < CHANNEL_LIMIT && p < PROCESS_LIMIT
    requires s.channels[i].active && s.channels[i].owner == pid ==>
               && (s.channels[i].waiter.active ==> s.channels[i].waiter.pid == pid || s.channels[i].waiter.pid != p)
               && (s.channels[i].sender.active ==> s.channels[i].sender.pid == pid || s.channels[i].sender.pid != p)
    ensures CleanChannel(s, pid, i).sched.tasks[p] == s.sched.tasks[p]
  {
  }

  lemma {:induction false} CleanupToStranger(s: State, pid: nat, n: nat, p: nat)
    requires Shape(s) && n <= CHANNEL_LIMIT && p < PROCESS_LIMIT && Stranger(s, pid, p)
    ensures CleanupTo(s, pid, n).sched.tasks[p] == s.sched.tasks[p]
  {
    if n > 0 {
      CleanupToStranger(s, pid, n - 1, p);
      CleanupToChannels(s, pid, n - 1);
      RoundStranger(CleanupTo(s, pid, n - 1), pid, n - 1, p);
      hide CleanedChannel, CleanChannel;
    }
  }

  /** Cleaning up a process closes its channels and takes its own waits and parked messages out of
      the others; the other tasks are touched only where they sleep on a channel it owned. */
  ghost predicate CleanedUp(s: State, r: State, pid: nat) {
    && Shape(s) && Shape(r)
    && (forall c | 0 <= c < CHANNEL_LIMIT :: CleanedChannel(s.channels[c], r.channels[c], pid))
    && (forall p | 0 <= p < PROCESS_LIMIT && Stranger(s, pid, p) :: r.sched.tasks[p] == s.sched.tasks[p])
    && OnlyWakes(s.sched, r.sched)
  }

  lemma CleanupLaw(s: State, pid: nat)
    requires RegistryInv(s) && TasksOk(s.sched)
    ensures CleanedUp(s, Cleanup(s, pid), pid)
  {
    var s0 := s.(input := CancelInputWait(s.input, pid));
    CleanupToChannels(s0, pid, CHANNEL_LIMIT);
    CleanupInv(s, pid);
    forall p | 0 <= p < PROCESS_LIMIT && Stranger(s, pid, p)
      ensures Cleanup(s, pid).sched.tasks[p] == s.sched.tasks[p]
    {
      assert Stranger(s0, pid, p);
      CleanupToStranger(s0, pid, CHANNEL_LIMIT, p);
    }
    hide CleanedChannel, CleanupTo, RegistryX;
  }

  lemma CleanedTwice(c: Channel, d: Channel, e: Channel, pid: nat)
    requires CleanedChannel(c, d, pid) && CleanedChannel(d, e, pid)
    ensures CleanedChannel(c, e, pid)
  {
  }

  // ----- ends -----

  /** The parent of `pid` sleeps in wait for it. */
  predicate Awaited(s: Sched, pid: nat)
    requires SchedShape(s) && pid < PROCESS_LIMIT
  {
    var q := s.tasks[pid].parent;
    && 0 < q < PROCESS_LIMIT && q != pid && s.tasks[q].state == Blocked
    && (s.tasks[q].waitingFor == Some(0) || s.tasks[q].waitingFor == Some(pid))
  }

  /** `pid` has ended: its parent in wait is ready with its number and code and the slot is free, or
      it keeps its code until it is reaped. */
  ghost predicate Ended(s: Sched, r: Sched, pid: nat, code: nat) {
    && SchedShape(s) && SchedShape(r) && pid < PROCESS_LIMIT
    && if Awaited(s, pid)
       then var q := s.tasks[pid].parent;
            && r.tasks[pid] == CLEARED && (r.tasks[q].state == Ready || r.tasks[q].state == Running)
            && r.tasks[q].result == pid && r.tasks[q].detail == code && r.tasks[q].waitingFor == None
       else r.tasks[pid] == s.tasks[pid].(state := Exited, exitCode := code)
  }

  lemma AwaitedAfterCleanup(s: State, pid: nat, cleaned: nat)
    requires RegistryInv(s) && TasksOk(s.sched) && pid < PROCESS_LIMIT
    ensures var r := Cleanup(s, cleaned).sched;
            SchedShape(r) && (Awaited(s.sched, pid) <==> Awaited(r, pid))
            && r.tasks[pid].parent == s.sched.tasks[pid].parent
  {
    CleanupKin(s, cleaned);
    var r := Cleanup(s, cleaned).sched;
    assert KinAt(s.sched.tasks[pid], r.tasks[pid]);
    var q := s.sched.tasks[pid].parent;
    if q < PROCESS_LIMIT { assert KinAt(s.sched.tasks[q], r.tasks[q]); }
    hide Cleanup, RegistryX;
  }

  lemma ReleasedSlot(s: State, child: nat)
    requires RegistryInv(s) && TasksOk(s.sched) && 0 < child < PROCESS_LIMIT
    ensures var r := ReleaseSlot(s, child);
            && r.sched.tasks[child] == CLEARED
            && (forall c | 0 <= c < CHANNEL_LIMIT :: CleanedChannel(s.channels[c], r.channels[c], child))
            && (forall p | 0 <= p < PROCESS_LIMIT && p != child && s.sched.tasks[p].state != Blocked ::
                  r.sched.tasks[p] == s.sched.tasks[p])
            && r.sched == s.sched.(tasks := r.sched.tasks)
  {
    CleanupLaw(s, child);
    CleanupInv(s, child);
    hide Cleanup, CleanedChannel, RegistryX;
  }

  lemma EndLaw(s: State, pid: nat, code: nat)
    requires RegistryInv(s) && SchedInv(s.sched) && 0 < pid < PROCESS_LIMIT && !Gone(s.sched.tasks[pid])
    ensures var r := WakeParent(s.(sched := Died(s.sched, pid, code)), pid);
            && Ended(s.sched, r.sched, pid, code)
            && r.sched.current == s.sched.current && r.sched.dispatches == s.sched.dispatches
            && r.sched.usersRunning == s.sched.usersRunning
            && (if Awaited(s.sched, pid)
                then forall c | 0 <= c < CHANNEL_LIMIT :: CleanedChannel(s.channels[c], r.channels[c], pid)
                else r.channels == s.channels && r.input == s.input)
  {
    DieInv(s, pid, code);
    var s1 := s.(sched := Died(s.sched, pid, code));
    assert ParentWaits(s1.sched, pid) <==> Awaited(s.sched, pid);
    if ParentWaits(s1.sched, pid) {
      var q := s1.sched.tasks[pid].parent;
      var t := s1.sched.tasks[q].(result := pid, detail := code, waitingFor := None, state := Ready);
      AwakeUnregistered(s1, q);
      RegistryTask(s1, q, t);
      ReleasedSlot(s1.(sched := SetTask(s1.sched, q, t)), pid);
    }
    hide RegistryX, ReleaseSlot, CleanedChannel;
  }

  /** After an end the processor goes on; what the end left stays. */
  lemma LeaveLaw(s: Sched, m: Sched, pid: nat, code: nat)
    requires Ended(s, m, pid, code) && MidSwitch(m) && pid == m.current && m.tasks[pid].state != Ready && m.tasks[pid].state != Running
    ensures var next := NextReady(m.tasks, m.current);
            next < PROCESS_LIMIT && Ended(s, if next != 0 then Dispatch(m, next) else ReturnIdle(m), pid, code)
            && HandedOn(m, if next != 0 then Dispatch(m, next) else ReturnIdle(m))
  {
    NextReadySpec(m.tasks, m.current);
  }

  /** The three stages of an exit: cleanup, the end, and the processor going on. */
  lemma ExitStages(s: State, code: nat) returns (s0: State, m: State)
    requires Inv(s) && s.sched.current != 0
    ensures s0 == Cleanup(s, s.sched.current) && RegistryInv(s0) && SchedInv(s0.sched) && Shape(m)
    ensures m == WakeParent(s0.(sched := Died(s0.sched, s.sched.current, code)), s.sched.current)
    ensures MidSwitch(m.sched) && m.sched.current == s.sched.current
    ensures m.sched.tasks[s.sched.current].state != Ready && m.sched.tasks[s.sched.current].state != Running
    ensures var next := NextReady(m.sched.tasks, m.sched.current);
            next < PROCESS_LIMIT
            && SysExit(s, code) == m.(sched := if next != 0 then Dispatch(m.sched, next) else ReturnIdle(m.sched))
    ensures !Gone(s0.sched.tasks[s.sched.current]) && s0.sched.dispatches == s.sched.dispatches
  {
    var pid := s.sched.current;
    s0 := Cleanup(s, pid);
    CleanupInv(s, pid);
    CleanupWhole(s, pid);
    DieInv(s0, pid, code);
    var s1 := s0.(sched := Died(s0.sched, pid, code));
    WakeParentInv(s1, pid);
    m := WakeParent(s1, pid);
    NextReadySpec(m.sched.tasks, m.sched.current);
    hide RegistryX, Cleanup, WakeParent, NextReady;
  }

  /** Exit ends the caller with its code, closes its channels and hands the processor on. */
  lemma ExitLaw(s: State, code: nat)
    requires Inv(s) && s.sched.current != 0
    ensures var r := Next(s, Exit(code)).state; var pid := s.sched.current;
            && Ended(s.sched, r.sched, pid, code) && HandedOn(s.sched, r.sched)
            && forall c | 0 <= c < CHANNEL_LIMIT :: CleanedChannel(s.channels[c], r.channels[c], pid)
  {
    var pid := s.sched.current;
    assert RegistryInv(s) && TasksOk(s.sched) && Shape(s) && pid < PROCESS_LIMIT && SchedShape(s.sched);
    assert Next(s, Exit(code)).state == SysExit(s, code);
    var s0, m := ExitStages(s, code);
    ExitParts(s, s0, m, code);
    hide *;
    ExitEnd(s, s0, m, code);
    HandsAfter(s.sched, s0.sched, m.sched, SysExit(s, code).sched);
  }

  lemma ExitParts(s: State, s0: State, m: State, code: nat)
    requires RegistryInv(s) && TasksOk(s.sched) && s.sched.current < PROCESS_LIMIT && s.sched.current != 0
    requires s0 == Cleanup(s, s.sched.current) && RegistryInv(s0) && SchedInv(s0.sched)
    requires m == WakeParent(s0.(sched := Died(s0.sched, s.sched.current, code)), s.sched.current)
    requires !Gone(s0.sched.tasks[s.sched.current])
    ensures Shape(m) && SchedShape(s.sched) && Ended(s0.sched, m.sched, s.sched.current, code)
    ensures forall c | 0 <= c < CHANNEL_LIMIT :: CleanedChannel(s.channels[c], m.channels[c], s.sched.current)
    ensures m.sched.dispatches == s.sched.dispatches
    ensures Awaited(s.sched, s.sched.current) <==> Awaited(s0.sched, s.sched.current)
    ensures s0.sched.tasks[s.sched.current] == s.sched.tasks[s.sched.current]
  {
    var pid := s.sched.current;
    CleanupLaw(s, pid);
    CleanupInv(s, pid);
    AwaitedAfterCleanup(s, pid, pid);
    EndLaw(s0, pid, code);
    ExitChannels(s, s0, m, pid);
    hide RegistryX, Cleanup, WakeParent, CleanedChannel, MidSwitch;
  }

  lemma ExitEnd(s: State, s0: State, m: State, code: nat)
    requires SchedShape(s.sched) && SchedShape(s0.sched) && s.sched.current < PROCESS_LIMIT
    requires Ended(s0.sched, m.sched, s.sched.current, code) && MidSwitch(m.sched) && m.sched.current == s.sched.current
    requires m.sched.tasks[s.sched.current].state != Ready && m.sched.tasks[s.sched.current].state != Running
    requires Awaited(s.sched, s.sched.current) <==> Awaited(s0.sched, s.sched.current)
    requires s0.sched.tasks[s.sched.current] == s.sched.tasks[s.sched.current]
    ensures var next := NextReady(m.sched.tasks, m.sched.current);
            next < PROCESS_LIMIT
            && var r := if next != 0 then Dispatch(m.sched, next) else ReturnIdle(m.sched);
               Ended(s.sched, r, s.sched.current, code) && HandedOn(m.sched, r)
  {
    LeaveLaw(s0.sched, m.sched, s.sched.current, code);
  }

  lemma HandsAfter(s: Sched, s0: Sched, m: Sched, r: Sched)
    requires HandedOn(m, r) && SchedShape(s) && m.current == s.current && m.dispatches == s.dispatches
    ensures HandedOn(s, r)
  {
  }

  lemma ExitChannels(s: State, s0: State, m: State, pid: nat)
    requires Shape(s) && Shape(s0) && Shape(m)
    requires forall c | 0 <= c < CHANNEL_LIMIT :: CleanedChannel(s.channels[c], s0.channels[c], pid)
    requires (forall c | 0 <= c < CHANNEL_LIMIT :: CleanedChannel(s0.channels[c], m.channels[c], pid)) || m.channels == s0.channels
    ensures forall c | 0 <= c < CHANNEL_LIMIT :: CleanedChannel(s.channels[c], m.channels[c], pid)
  {
    forall c | 0 <= c < CHANNEL_LIMIT ensures CleanedChannel(s.channels[c], m.channels[c], pid) {
      if CleanedChannel(s0.channels[c], m.channels[c], pid) {
        CleanedTwice(s.channels[c], s0.channels[c], m.channels[c], pid);
      }
    }
  }

  /** Whom a termination can end. */
  predicate Mortal(s: Sched, target: nat)
    requires SchedShape(s)
  {
    0 < target < PROCESS_LIMIT && target != s.current && s.tasks[target].state != Unused && s.tasks[target].state != Exited
  }

  /** Terminate ends its target exactly when that is another living process; but it closes the
      target's channels and takes away its waits even when it is refused. */
  lemma TerminateLaw(s: State, target: nat, code: nat)
    requires Inv(s) && s.sched.current != 0
    ensures var r := Next(s, TerminateCall(target, code)).state;
            && KeptRunning(s.sched, r.sched)
            && (forall c | 0 <= c < CHANNEL_LIMIT :: CleanedChannel(s.channels[c], r.channels[c], target))
            && if Mortal(s.sched, target) then Ended(s.sched, r.sched, target, code) else CleanedUp(s, r, target)
  {
    var s0 := Cleanup(s, target);
    CleanupLaw(s, target);
    CleanupInv(s, target);
    CleanupWhole(s, target);
    assert CanTerminate(s0.sched, target) <==> Mortal(s.sched, target);
    if Mortal(s.sched, target) {
      AwaitedAfterCleanup(s, target, target);
      EndLaw(s0, target, code);
      var m := WakeParent(s0.(sched := Died(s0.sched, target, code)), target);
      ExitChannels(s, s0, m, target);
    }
    hide RegistryX, Cleanup, WakeParent, CleanedChannel, CleanedUp;
  }

  /** The kernel's own termination leaves the channels open unless a parent collects the process. */
  lemma KillLaw(s: State, target: nat, code: nat)
    requires Inv(s)
    ensures var r := Next(s, Kill(target, code)).state;
            && KeptRunning(s.sched, r.sched)
            && if !Mortal(s.sched, target) then r == s
               else && Ended(s.sched, r.sched, target, code)
                    && if Awaited(s.sched, target)
                       then forall c | 0 <= c < CHANNEL_LIMIT :: CleanedChannel(s.channels[c], r.channels[c], target)
                       else r.channels == s.channels
  {
    if Mortal(s.sched, target) { EndLaw(s, target, code); }
    hide RegistryX, WakeParent, CleanedChannel;
  }

  // ----- waits -----

  /** The child of `parent` has ended and was not collected. */
  predicate Collectable(s: Sched, parent: nat, child: nat)
    requires SchedShape(s)
  {
    0 < child < PROCESS_LIMIT && s.tasks[child].parent == parent && s.tasks[child].state == Exited
  }

  /** Wait collects an ended child, sleeps for a living one, and refuses any other number. */
  lemma WaitLaw(s: State, child: nat)
    requires Inv(s) && s.sched.current != 0
    ensures var r := Next(s, Wait(child)).state; var pid := s.sched.current;
            if Collectable(s.sched, pid, child)
            then && r.sched.tasks[child] == CLEARED && KeptRunning(s.sched, r.sched)
                 && forall c | 0 <= c < CHANNEL_LIMIT :: CleanedChannel(s.channels[c], r.channels[c], child)
            else if child < PROCESS_LIMIT && s.sched.tasks[child].parent == pid && s.sched.tasks[child].state != Unused
            then && r.sched.tasks[pid] == s.sched.tasks[pid].(state := Blocked, waitingFor := Some(child))
                 && HandedOn(s.sched, r.sched) && r.channels == s.channels && r.input == s.input
            else r == s
  {
    var pid := s.sched.current;
    if Collectable(s.sched, pid, child) {
      ReleasedSlot(s, child);
    } else if child < PROCESS_LIMIT && s.sched.tasks[child].parent == pid && s.sched.tasks[child].state != Unused {
      var m := SetTask(s.sched, pid, s.sched.tasks[pid].(state := Blocked, waitingFor := Some(child)));
      FinishHands(m, GiveUp);
      HandsAfter(s.sched, s.sched, m, Reschedule(m));
      NextReadySpec(m.tasks, m.current);
    }
    hide RegistryX, ReleaseSlot, CleanedChannel, HandedOn;
  }

  /** Reaping frees the slot of an ended child exactly for its parent. */
  lemma ReapLaw(s: State, parent: nat, child: nat)
    requires Inv(s)
    ensures var r := Next(s, ReapStep(parent, child)).state;
            if Collectable(s.sched, parent, child)
            then && r.sched.tasks[child] == CLEARED && KeptRunning(s.sched, r.sched)
                 && forall c | 0 <= c < CHANNEL_LIMIT :: CleanedChannel(s.channels[c], r.channels[c], child)
            else r == s
  {
    if Collectable(s.sched, parent, child) { ReleasedSlot(s, child); }
    hide RegistryX, ReleaseSlot, CleanedChannel;
  }
}
