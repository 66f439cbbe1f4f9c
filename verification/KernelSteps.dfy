/** Every kernel entry keeps the invariant, hence every reachable state satisfies it. */
module KernelSteps {
  import opened KernelState
  import opened KernelInvariants
  import opened Options

  /** `r` differs from `s` only in blocked tasks that were woken. */
  ghost predicate OnlyWakes(s: Sched, r: Sched) {
    && SchedShape(s) && SchedShape(r) && r == s.(tasks := r.tasks)
    && forall p | 0 <= p < PROCESS_LIMIT && r.tasks[p] != s.tasks[p] ::
         p != 0 && s.tasks[p].state == Blocked && r.tasks[p] == Woken(s.tasks[p], r.tasks[p].result, r.tasks[p].detail)
  }

  lemma OnlyWakesKeeps(s: Sched, r: Sched)
    requires OnlyWakes(s, r)
    ensures TasksOk(s) ==> TasksOk(r)
    ensures SchedInv(s) ==> SchedInv(r)
    ensures MidSwitch(s) ==> MidSwitch(r)
  {
  }

  // ----- ipc_process_cleanup -----

  /** Channel `c` neither belongs to `pid` nor has it waiting or parked. */
  predicate Free(c: Channel, pid: nat) {
    && (c.active ==> c.owner != pid)
    && (c.waiter.active ==> c.waiter.pid != pid)
    && (c.sender.active ==> c.sender.pid != pid)
  }

  ghost predicate CleanedTo(s: State, r: State, pid: nat, n: nat) {
    && RegistryX(r, pid) && Shape(s) && n <= CHANNEL_LIMIT
    && r.input.waiter != Some(pid)
    && OnlyWakes(s.sched, r.sched)
    && (pid < PROCESS_LIMIT ==> r.sched.tasks[pid] == s.sched.tasks[pid])
    && (forall c | 0 <= c < n :: Free(r.channels[c], pid))
  }

  /** Dropping the wait of the task being cleaned, whose input half is already gone. */
  lemma MuteOwn(s: State, id: nat, pid: nat)
    requires RegistryX(s, pid) && id < CHANNEL_LIMIT && s.input.waiter != Some(pid)
    ensures RegistryX(s.(channels := s.channels[id := Muted(s.channels[id], pid)]), pid)
  {
    if s.channels[id].active && s.channels[id].waiter.active && s.channels[id].waiter.pid == pid {
      OneHalfIsBoth(s, id, pid);
      assert CancelInputWait(s.input, pid) == s.input;
    } else {
      assert s.channels[id := Muted(s.channels[id], pid)] == s.channels;
    }
  }

  lemma DropOwnSender(s: State, id: nat, pid: nat)
    requires RegistryX(s, pid) && id < CHANNEL_LIMIT
    ensures RegistryX(s.(channels := s.channels[id := Unparked(s.channels[id], pid)]), pid)
  {
    if s.channels[id].sender.active && s.channels[id].sender.pid == pid {
      DropSender(s, id, pid);
    } else {
      assert s.channels[id := Unparked(s.channels[id], pid)] == s.channels;
    }
  }

  lemma FailWaiterInv(s: State, id: nat, pid: nat)
    requires RegistryX(s, pid) && TasksOk(s.sched) && id < CHANNEL_LIMIT
    ensures RegistryX(FailWaiter(s, id), pid)
    ensures OnlyWakes(s.sched, FailWaiter(s, id).sched)
  {
    var w := s.channels[id].waiter;
    if w.active {
      OneHalfIsBoth(s, id, pid);
      WakeKeepsRegistry(CancelBoth(s, w.pid), w.pid, FAILURE, 0, pid);
    }
  }

  lemma FailSenderInv(s: State, id: nat, pid: nat)
    requires RegistryX(s, pid) && TasksOk(s.sched) && id < CHANNEL_LIMIT
    ensures RegistryX(FailSender(s, id), pid)
    ensures OnlyWakes(s.sched, FailSender(s, id).sched)
  {
    var c := s.channels[id];
    if c.sender.active {
      DropSender(s, id, pid);
      var s1 := s.(channels := s.channels[id := c.(sender := c.sender.(active := false))]);
      WakeKeepsRegistry(s1, c.sender.pid, FAILURE, 0, pid);
    }
  }

  lemma OnlyWakesTrans(a: Sched, b: Sched, c: Sched)
    requires OnlyWakes(a, b) && OnlyWakes(b, c)
    ensures OnlyWakes(a, c)
  {
  }

  /** The owner's part of a round. */
  lemma CloseRound(s: State, pid: nat, id: nat)
    requires RegistryX(s, pid) && TasksOk(s.sched) && id < CHANNEL_LIMIT
    ensures var s2 := FailSender(FailWaiter(s, id), id);
            var r := s2.(channels := s2.channels[id := Closed(s2.channels[id])]);
            RegistryX(r, pid) && OnlyWakes(s.sched, r.sched)
  {
    FailWaiterInv(s, id, pid);
    var s1 := FailWaiter(s, id);
    OnlyWakesKeeps(s.sched, s1.sched);
    FailSenderInv(s1, id, pid);
    var s2 := FailSender(s1, id);
    OnlyWakesTrans(s.sched, s1.sched, s2.sched);
    assert Closed(s2.channels[id]).waiter == s2.channels[id].waiter;
    ReplaceRing(s2, id, Closed(s2.channels[id]), pid);
  }

  lemma CleanRoundRegistry(s: State, pid: nat, id: nat)
    requires RegistryX(s, pid) && TasksOk(s.sched) && id < CHANNEL_LIMIT && s.input.waiter != Some(pid)
    ensures var r := CleanChannel(s, pid, id);
            RegistryX(r, pid) && OnlyWakes(s.sched, r.sched)
  {
    MuteOwn(s, id, pid);
    var s0 := s.(channels := s.channels[id := Muted(s.channels[id], pid)]);
    DropOwnSender(s0, id, pid);
    var s1 := s.(channels := s.channels[id := Unparked(Muted(s.channels[id], pid), pid)]);
    assert s1 == s0.(channels := s0.channels[id := Unparked(s0.channels[id], pid)]);
    if s.channels[id].active && s.channels[id].owner == pid {
      CloseRound(s1, pid, id);
    }
  }

  lemma CleanRoundLocal(s: State, pid: nat, id: nat)
    requires Shape(s) && id < CHANNEL_LIMIT && s.input.waiter != Some(pid)
    ensures var r := CleanChannel(s, pid, id);
            && Free(r.channels[id], pid)
            && (pid < PROCESS_LIMIT ==> r.sched.tasks[pid] == s.sched.tasks[pid])
            && r.input.waiter != Some(pid)
            && (forall c | 0 <= c < CHANNEL_LIMIT && c != id :: r.channels[c] == s.channels[c])
  {
  }

  /** Removing the input half first breaks only the link of `pid`'s own select. */
  lemma CleanupStart(s: State, pid: nat)
    requires RegistryInv(s)
    ensures RegistryX(s.(input := CancelInputWait(s.input, pid)), pid)
  {
    var s0 := s.(input := CancelInputWait(s.input, pid));
    assert Shape(s0);
    forall c | 0 <= c < CHANNEL_LIMIT
      ensures WaiterOk(s0, s0.channels[c].waiter, pid) && SenderOk(s0, s0.channels[c])
    {
      assert WaiterOk(s, s.channels[c].waiter, 0) && SenderOk(s, s.channels[c]);
    }
    if s0.input.waiter.Some? {
      var c :| SelectHalf(s, c, s.input.waiter.value);
      assert SelectHalf(s0, c, s0.input.waiter.value);
    }
  }

  lemma CleanupToInv(s: State, s0: State, pid: nat, n: nat)
    requires RegistryInv(s) && TasksOk(s.sched) && n <= CHANNEL_LIMIT
    requires s0 == s.(input := CancelInputWait(s.input, pid))
    ensures CleanedTo(s, CleanupTo(s0, pid, n), pid, n)
  {
    if n == 0 {
      CleanupStart(s, pid);
    } else {
      CleanupToInv(s, s0, pid, n - 1);
      var r := CleanupTo(s0, pid, n - 1);
      CleanedStep(s, r, pid, n);
    }
  }

  lemma CleanedStep(s: State, r: State, pid: nat, n: nat)
    requires 0 < n <= CHANNEL_LIMIT && TasksOk(s.sched) && CleanedTo(s, r, pid, n - 1)
    ensures CleanedTo(s, CleanChannel(r, pid, n - 1), pid, n)
  {
    hide RegistryX, OnlyWakes, CleanChannel, TasksOk, Free;
    assert Shape(r) by { CleanedShape(s, r, pid, n - 1); }
    OnlyWakesKeeps(s.sched, r.sched);
    CleanRoundRegistry(r, pid, n - 1);
    CleanRoundLocal(r, pid, n - 1);
    OnlyWakesTrans(s.sched, r.sched, CleanChannel(r, pid, n - 1).sched);
  }

  lemma CleanedShape(s: State, r: State, pid: nat, n: nat)
    requires CleanedTo(s, r, pid, n)
    ensures Shape(r)
  {
  }

  /** After ipc_process_cleanup(pid) the task is in no registry and owns no channel; other tasks
      are at most woken. */
  lemma CleanupInv(s: State, pid: nat)
    requires RegistryInv(s) && TasksOk(s.sched)
    ensures var r := Cleanup(s, pid);
            && RegistryInv(r) && !Registered(r, pid) && OnlyWakes(s.sched, r.sched)
            && (forall c | 0 <= c < CHANNEL_LIMIT :: Free(r.channels[c], pid))
            && (pid < PROCESS_LIMIT ==> r.sched.tasks[pid] == s.sched.tasks[pid])
  {
    var s0 := s.(input := CancelInputWait(s.input, pid));
    CleanupToInv(s, s0, pid, CHANNEL_LIMIT);
    var r := Cleanup(s, pid);
    forall c | 0 <= c < CHANNEL_LIMIT
      ensures WaiterOk(r, r.channels[c].waiter, 0)
    {
      assert WaiterOk(r, r.channels[c].waiter, pid) && Free(r.channels[c], pid);
    }
    forall c | 0 <= c < CHANNEL_LIMIT
      ensures !(r.channels[c].waiter.active && r.channels[c].waiter.pid == pid)
      ensures !(r.channels[c].sender.active && r.channels[c].sender.pid == pid)
    {
      assert Free(r.channels[c], pid);
    }
  }

  // ----- leaving: release, exit, terminate, wait -----

  lemma ReleaseInv(s: State, child: nat)
    requires RegistryInv(s) && TasksOk(s.sched) && 0 < child < PROCESS_LIMIT && s.sched.tasks[child].state == Exited
    ensures var r := ReleaseSlot(s, child);
            && RegistryInv(r) && TasksOk(r.sched)
            && r.sched == s.sched.(tasks := r.sched.tasks)
            && (SchedInv(s.sched) ==> SchedInv(r.sched)) && (MidSwitch(s.sched) ==> MidSwitch(r.sched))
            && r.sched.tasks[child] == CLEARED
  {
    CleanupInv(s, child);
    var s1 := Cleanup(s, child);
    OnlyWakesKeeps(s.sched, s1.sched);
    RegistryTask(s1, child, CLEARED);
  }

  lemma WakeParentInv(s: State, child: nat)
    requires RegistryInv(s) && TasksOk(s.sched) && 0 < child < PROCESS_LIMIT && s.sched.tasks[child].state == Exited
    ensures var r := WakeParent(s, child);
            && RegistryInv(r) && TasksOk(r.sched)
            && r.sched == s.sched.(tasks := r.sched.tasks)
            && (SchedInv(s.sched) ==> SchedInv(r.sched)) && (MidSwitch(s.sched) ==> MidSwitch(r.sched))
            && (r.sched.tasks[child].state == Exited || r.sched.tasks[child].state == Unused)
  {
    if ParentWaits(s.sched, child) {
      var p := s.sched.tasks[child].parent;
      AwakeUnregistered(s, p);
      var t := s.sched.tasks[p].(result := child, detail := s.sched.tasks[child].exitCode,
                                 waitingFor := None, state := Ready);
      RegistryTask(s, p, t);
      ReleaseInv(s.(sched := SetTask(s.sched, p, t)), child);
    }
  }

  lemma ReapInv(s: State, parent: nat, child: nat)
    requires Inv(s)
    ensures Inv(Reap(s, parent, child))
  {
    if CanReap(s.sched, parent, child) { ReleaseInv(s, child); }
  }

  lemma RunNextInv(s: Sched)
    requires MidSwitch(s) && s.tasks[s.current].state != Ready && s.tasks[s.current].state != Running
    ensures var next := NextReady(s.tasks, s.current);
            next < PROCESS_LIMIT
            && var r := if next != 0 then Dispatch(s, next) else ReturnIdle(s);
               SchedInv(r) && SleepersKept(s, r)
  {
    NextReadySpec(s.tasks, s.current);
  }

  lemma DieInv(s: State, pid: nat, code: nat)
    requires RegistryInv(s) && SchedInv(s.sched) && 0 < pid < PROCESS_LIMIT
    requires s.sched.tasks[pid].state != Unused && s.sched.tasks[pid].state != Exited
    ensures var s1 := s.(sched := Died(s.sched, pid, code));
            && RegistryInv(s1) && TasksOk(s1.sched)
            && (pid == s.sched.current ==> MidSwitch(s1.sched)) && (pid != s.sched.current ==> SchedInv(s1.sched))
  {
    var t := s.sched.tasks[pid].(exitCode := code, state := Exited);
    if Sleeping(s.sched.tasks[pid]) {
      RegistryRetire(s, pid, t);
    } else {
      AwakeUnregistered(s, pid);
      RegistryTask(s, pid, t);
    }
  }

  /** A sleeping task may stay registered when it is killed: it is still a sleeper. */
  lemma RegistryRetire(s: State, pid: nat, t: Task)
    requires RegistryInv(s) && pid < PROCESS_LIMIT && Sleeping(s.sched.tasks[pid]) && Sleeping(t)
    requires t.timedWait == s.sched.tasks[pid].timedWait
    ensures RegistryInv(s.(sched := SetTask(s.sched, pid, t)))
  {
    var s' := s.(sched := SetTask(s.sched, pid, t));
    assert Shape(s');
    forall c | 0 <= c < CHANNEL_LIMIT
      ensures WaiterOk(s', s'.channels[c].waiter, 0) && SenderOk(s', s'.channels[c])
    {
      assert WaiterOk(s, s.channels[c].waiter, 0) && SenderOk(s, s.channels[c]);
    }
    if s.input.waiter.Some? {
      var c :| SelectHalf(s, c, s.input.waiter.value);
      assert SelectHalf(s', c, s'.input.waiter.value);
    }
  }

  lemma TerminateInv(s: State, pid: nat, code: nat)
    requires Inv(s)
    ensures Inv(Terminate(s, pid, code))
  {
    if CanTerminate(s.sched, pid) {
      DieInv(s, pid, code);
      WakeParentInv(s.(sched := Died(s.sched, pid, code)), pid);
    }
  }

  lemma ExitInv(s: State, code: nat)
    requires Inv(s)
    ensures Inv(OnExit(s, code))
  {
    if s.sched.current != 0 {
      var pid := s.sched.current;
      DieInv(s, pid, code);
      var s0 := s.(sched := Died(s.sched, pid, code));
      WakeParentInv(s0, pid);
      var s1 := WakeParent(s0, pid);
      RunNextInv(s1.sched);
      SwitchKeepsRegistry(s1, OnExit(s, code).sched);
    }
  }

  lemma WaitInv(s: State, child: nat)
    requires Inv(s) && s.sched.current != 0
    ensures Inv(OnWait(s, child))
  {
    var pid := s.sched.current;
    if CanReap(s.sched, pid, child) {
      ReapInv(s, pid, child);
    } else if child < PROCESS_LIMIT && s.sched.tasks[child].parent == pid && s.sched.tasks[child].state != Unused {
      var t := s.sched.tasks[pid].(state := Blocked, waitingFor := Some(child));
      SuspendInv(s.sched, t);
      SwitchKeepsRegistry(s, Reschedule(SetTask(s.sched, pid, t)));
    }
  }

  lemma CleanupWhole(s: State, pid: nat)
    requires Inv(s)
    ensures Inv(Cleanup(s, pid)) && Cleanup(s, pid).sched.current == s.sched.current
  {
    CleanupInv(s, pid);
    OnlyWakesKeeps(s.sched, Cleanup(s, pid).sched);
  }

  // ----- time and input -----

  lemma TimeoutOneInv(s: State, pid: nat)
    requires Inv(s) && 0 < pid < PROCESS_LIMIT
    ensures Inv(TimeoutOne(s, pid)) && OnlyWakes(s.sched, TimeoutOne(s, pid).sched)
  {
    var t := s.sched.tasks[pid];
    if t.state == Blocked && t.timedWait && t.wakeTick <= s.sched.ticks {
      CancelBothInv(s, pid, 0);
      var s1 := CancelBoth(s, pid);
      forall c | 0 <= c < CHANNEL_LIMIT
        ensures !(s1.channels[c].sender.active && s1.channels[c].sender.pid == pid)
      {
        assert SenderOk(s, s.channels[c]);
      }
      RegistryTask(s1, pid, Woken(t, t.timeoutResult, 0));
    }
  }

  lemma TimeoutsUnroll(s: State, n: nat)
    requires Shape(s) && 1 <= n <= PROCESS_LIMIT
    ensures n == 1 ==> TimeoutsTo(s, n) == s
    ensures n > 1 ==> TimeoutsTo(s, n) == TimeoutOne(TimeoutsTo(s, n - 1), n - 1)
  {
  }

  lemma WakesNothing(s: Sched)
    requires SchedShape(s)
    ensures OnlyWakes(s, s)
  {
  }

  lemma TimeoutsInv(s: State, n: nat)
    requires Inv(s) && 1 <= n <= PROCESS_LIMIT
    ensures Inv(TimeoutsTo(s, n)) && OnlyWakes(s.sched, TimeoutsTo(s, n).sched)
  {
    assert SchedShape(s.sched) && Shape(s);
    hide *;
    TimeoutsUnroll(s, n);
    WakesNothing(s.sched);
    if n > 1 {
      TimeoutsInv(s, n - 1);
      TimeoutThen(s, TimeoutsTo(s, n - 1), n - 1);
    }
  }

  lemma TimeoutThen(s: State, r: State, pid: nat)
    requires Shape(s) && Inv(r) && OnlyWakes(s.sched, r.sched) && 0 < pid < PROCESS_LIMIT
    ensures Inv(TimeoutOne(r, pid)) && OnlyWakes(s.sched, TimeoutOne(r, pid).sched)
  {
    TimeoutOneInv(r, pid);
    OnlyWakesTrans(s.sched, r.sched, TimeoutOne(r, pid).sched);
  }

  lemma RescheduleWhole(s: State)
    requires RegistryInv(s) && MidSwitch(s.sched) && s.sched.tasks[s.sched.current].state == Running
    ensures Inv(s.(sched := Reschedule(s.sched)))
  {
    RescheduleInv(s.sched);
    SwitchKeepsRegistry(s, Reschedule(s.sched));
  }

  lemma ChargeSlice(s: State)
    requires Inv(s) && s.sched.current != 0
    ensures var t := s.sched.tasks[s.sched.current];
            var s1 := s.(sched := SetTask(s.sched, s.sched.current, t.(slice := t.slice + 1)));
            && RegistryInv(s1) && MidSwitch(s1.sched) && s1.sched.tasks[s1.sched.current].state == Running
            && (t.slice + 1 < QUANTUM_TICKS ==> SchedInv(s1.sched))
  {
    var t := s.sched.tasks[s.sched.current];
    AwakeUnregistered(s, s.sched.current);
    RegistryTask(s, s.sched.current, t.(slice := t.slice + 1));
  }

  lemma ChargeInv(s: State)
    requires Inv(s)
    ensures Inv(s.(sched := ChargeTick(s.sched)))
  {
    if s.sched.current != 0 {
      var t := s.sched.tasks[s.sched.current];
      ChargeSlice(s);
      var s1 := s.(sched := SetTask(s.sched, s.sched.current, t.(slice := t.slice + 1)));
      if t.slice + 1 >= QUANTUM_TICKS {
        assert ChargeTick(s.sched) == Reschedule(s1.sched);
        RescheduleWhole(s1);
      } else {
        assert ChargeTick(s.sched) == s1.sched;
      }
    }
  }

  /** Counting the tick changes nothing the invariant depends on. */
  lemma TickStart(s: State)
    requires Inv(s)
    ensures var s0 := s.(sched := s.sched.(ticks := (s.sched.ticks + 1) % U64));
            && Shape(s) && Shape(s0) && Inv(s0) && Shape(TimeoutsTo(s0, PROCESS_LIMIT))
            && SchedShape(TimeoutsTo(s0, PROCESS_LIMIT).sched)
            && OnTick(s) == TimeoutsTo(s0, PROCESS_LIMIT).(sched := ChargeTick(TimeoutsTo(s0, PROCESS_LIMIT).sched))
  {
    CountTick(s);
    hide Inv, RegistryX, SchedInv, TimeoutsTo, ChargeTick;
  }

  lemma CountTick(s: State)
    requires Inv(s)
    ensures Shape(s) && Inv(s.(sched := s.sched.(ticks := (s.sched.ticks + 1) % U64)))
  {
    SwitchKeepsRegistry(s, s.sched.(ticks := (s.sched.ticks + 1) % U64));
    hide RegistryX;
  }

  lemma TickInv(s: State)
    requires Inv(s)
    ensures Inv(OnTick(s))
  {
    var s0 := s.(sched := s.sched.(ticks := (s.sched.ticks + 1) % U64));
    SwitchKeepsRegistry(s, s0.sched);
    TimeoutsInv(s0, PROCESS_LIMIT);
    ChargeInv(TimeoutsTo(s0, PROCESS_LIMIT));
  }

  lemma YieldInv(s: State)
    requires Inv(s)
    ensures Inv(OnYield(s))
  {
    if s.sched.current != 0 { RescheduleWhole(s); }
  }

  /** Changing only the event queue is invisible to the registry. */
  lemma QueueInv(s: State, i: Input)
    requires Inv(s) && InputOk(i) && i.waiter == s.input.waiter
    ensures Inv(s.(input := i))
  {
    var s' := s.(input := i);
    assert Shape(s');
    forall c | 0 <= c < CHANNEL_LIMIT
      ensures WaiterOk(s', s'.channels[c].waiter, 0) && SenderOk(s', s'.channels[c])
    {
      assert WaiterOk(s, s.channels[c].waiter, 0) && SenderOk(s, s.channels[c]);
    }
    if s.input.waiter.Some? {
      var c :| SelectHalf(s, c, s.input.waiter.value);
      assert SelectHalf(s', c, s'.input.waiter.value);
    }
  }

  lemma PublishStart(s: State)
    requires Inv(s)
    ensures Shape(s) && SchedShape(s.sched) && InputOk(s.input) && InputOk(s.input.(waiter := None))
    ensures |s.channels| == CHANNEL_LIMIT && Distinct(s)
  {
  }

  lemma RoomIgnoresWaiter(i: Input, e: Event)
    requires InputOk(i)
    ensures InputOk(i.(waiter := None)) && RoomFor(i.(waiter := None), e) == RoomFor(i, e)
  {
  }

  lemma PublishInv(s: State, e: Event)
    requires Inv(s)
    ensures Inv(Publish(s, e))
  {
    if 1 <= e.kind <= 6 {
      if s.input.waiter.Some? {
        var pid := s.input.waiter.value;
        var s1 := CancelBoth(s, pid);
        CancelBothInv(s, pid, 0);
        assert !Registered(s1, pid);
        if CanWake(s.sched, pid) {
          WakeKeepsRegistry(s1, pid, 2, EVENT_BYTES, 0);
          WakeInv(s.sched, pid, 2, EVENT_BYTES);
        } else {
          QueueInv(s1, PushEvent(s1.input, e));
        }
      } else {
        QueueInv(s, PushEvent(s.input, e));
      }
    }
  }

  // ----- sending, receiving, selecting -----

  lemma SendInv(s: State, chan: Option<nat>, data: seq<bv8>)
    requires Inv(s) && s.sched.current != 0
    ensures Inv(SysSend(s, chan, data).state)
  {
    var pid := s.sched.current;
    AwakeUnregistered(s, pid);
    if Resolves(s, chan) && 0 < |data| <= MESSAGE_MAX {
      var id := chan.value;
      var c := s.channels[id];
      var w := c.waiter;
      if w.active {
        HandOffInv(s, id, w.pid, if w.multiplex then 1 else |data|, if w.multiplex then |data| else pid);
        hide Inv, Wake;
      } else if c.count < QUEUE_DEPTH {
        QueueSendInv(s, id, Message(pid, data));
        hide Inv, Enqueue;
      } else if !c.sender.active {
        ParkInv(s, id, data);
        hide Inv, BlockCurrent;
      }
    }
  }

  lemma QueueSendInv(s: State, id: nat, m: Message)
    requires Inv(s) && id < CHANNEL_LIMIT && s.channels[id].active && s.channels[id].count < QUEUE_DEPTH
    requires 0 < |m.data| <= MESSAGE_MAX
    ensures RingOk(s.channels[id]) && Inv(s.(channels := s.channels[id := Enqueue(s.channels[id], m)]))
  {
    var c := s.channels[id];
    assert MessagesOk(c) && SenderOk(s, c) && Shape(s);
    hide RegistryX, SchedInv, WaiterOk;
    EnqueueMessages(c, m);
    ReplaceRing(s, id, Enqueue(c, m), 0);
  }

  lemma EnqueueMessages(c: Channel, m: Message)
    requires RingOk(c) && MessagesOk(c) && c.active && c.count < QUEUE_DEPTH && |m.data| <= MESSAGE_MAX
    ensures RingOk(Enqueue(c, m)) && MessagesOk(Enqueue(c, m))
  {
  }

  lemma HandOffInv(s: State, id: nat, pid: nat, result: nat, detail: nat)
    requires Inv(s) && id < CHANNEL_LIMIT && s.channels[id].waiter.active && s.channels[id].waiter.pid == pid
    ensures var w := s.channels[id].waiter;
            var s1 := s.(channels := s.channels[id := s.channels[id].(waiter := w.(active := false))],
                         input := if w.multiplex then CancelInputWait(s.input, w.pid) else s.input);
            Inv(s1) && Inv(s1.(sched := Wake(s.sched, pid, result, detail)))
  {
    OneHalfIsBoth(s, id, 0);
    WakeKeepsRegistry(CancelBoth(s, pid), pid, result, detail, 0);
    WakeInv(s.sched, pid, result, detail);
  }

  /** Parking and blocking are one step: the sender is asleep when it enters the registry. */
  lemma ParkInv(s: State, id: nat, data: seq<bv8>)
    requires Inv(s) && s.sched.current != 0 && id < CHANNEL_LIMIT && 0 < |data| <= MESSAGE_MAX
    requires s.channels[id].active && !s.channels[id].sender.active && s.channels[id].count == QUEUE_DEPTH
    ensures Inv(State(BlockCurrent(s.sched),
                      s.channels[id := s.channels[id].(sender := ParkedSender(true, s.sched.current, data))], s.input))
  {
    var pid := s.sched.current;
    AwakeUnregistered(s, pid);
    BlockInv(s.sched);
    var b := s.(sched := BlockCurrent(s.sched));
    SwitchKeepsRegistry(s, b.sched);
    AddSender(b, id, pid, data);
  }

  lemma WaitOnInv(s: State, id: nat, capacity: nat)
    requires Inv(s) && s.sched.current != 0 && CanWait(s, Some(id), capacity)
    ensures var s1 := Register(s, s.sched.current, id, capacity, false);
            Inv(s1.(sched := BlockCurrent(s1.sched)))
  {
    var pid := s.sched.current;
    AwakeUnregistered(s, pid);
    BlockInv(s.sched);
    var b := s.(sched := BlockCurrent(s.sched));
    SwitchKeepsRegistry(s, b.sched);
    AddWaiter(b, id, pid, capacity, false);
  }

  lemma SelectOnInv(s: State, id: nat, delay: nat)
    requires Inv(s) && s.sched.current != 0 && CanWait(s, Some(id), MESSAGE_MAX) && s.input.waiter == None
    ensures var pid := s.sched.current;
            var s2 := Register(s, pid, id, MESSAGE_MAX, true).(input := s.input.(waiter := Some(pid)));
            Inv(s2.(sched := if delay != 0 then BlockCurrentTimeout(s2.sched, delay, 3) else BlockCurrent(s2.sched)))
  {
    var pid := s.sched.current;
    AwakeUnregistered(s, pid);
    if delay != 0 { BlockTimeoutInv(s.sched, delay, 3); } else { BlockInv(s.sched); }
    var b := s.(sched := if delay != 0 then BlockCurrentTimeout(s.sched, delay, 3) else BlockCurrent(s.sched));
    SwitchKeepsRegistry(s, b.sched);
    AddWaiter(b, id, pid, MESSAGE_MAX, true);
  }

  /** The parked message moves into the freed cell and its sender leaves the registry. */
  lemma UnparkInv(s: State, id: nat)
    requires Inv(s) && id < CHANNEL_LIMIT && s.channels[id].active && s.channels[id].sender.active
    ensures var c := s.channels[id];
            var d := c.(read := (c.read + 1) % QUEUE_DEPTH, count := c.count - 1, sender := c.sender.(active := false));
            c.count == QUEUE_DEPTH
            && Inv(State(Wake(s.sched, c.sender.pid, |c.sender.data|, 0),
                         s.channels[id := Enqueue(d, Message(c.sender.pid, c.sender.data))], s.input))
  {
    var c := s.channels[id];
    assert MessagesOk(c) && SenderOk(s, c);
    DropSender(s, id, 0);
    var d := c.(sender := c.sender.(active := false));
    var s1 := s.(channels := s.channels[id := d]);
    WakeKeepsRegistry(s1, c.sender.pid, |c.sender.data|, 0, 0);
    WakeInv(s.sched, c.sender.pid, |c.sender.data|, 0);
    var s2 := s1.(sched := Wake(s.sched, c.sender.pid, |c.sender.data|, 0));
    var e := Enqueue(d.(read := (c.read + 1) % QUEUE_DEPTH, count := c.count - 1), Message(c.sender.pid, c.sender.data));
    ReplaceRing(s2, id, e, 0);
    assert s2.channels[id := e] == s.channels[id := e];
  }

  lemma TakeInv(s: State, id: nat)
    requires Inv(s) && id < CHANNEL_LIMIT && s.channels[id].active && !s.channels[id].sender.active
    requires s.channels[id].count > 0
    ensures var c := s.channels[id];
            Inv(s.(channels := s.channels[id := c.(read := (c.read + 1) % QUEUE_DEPTH, count := c.count - 1)]))
  {
    var c := s.channels[id];
    assert MessagesOk(c);
    ReplaceRing(s, id, c.(read := (c.read + 1) % QUEUE_DEPTH, count := c.count - 1), 0);
  }

  lemma ReceiveInv(s: State, chan: Option<nat>, capacity: nat)
    requires Inv(s)
    ensures Inv(Receive(s, chan, capacity).state)
  {
    hide Inv, Wake, Enqueue;
    assert Shape(s) by { InvShape(s); }
    if Resolves(s, chan) && HeadFits(s.channels[chan.value], capacity) {
      if s.channels[chan.value].sender.active { UnparkInv(s, chan.value); } else { TakeInv(s, chan.value); }
    }
  }

  lemma InvShape(s: State)
    requires Inv(s)
    ensures Shape(s)
  {
  }

  lemma CancelNothing(s: State, pid: nat)
    requires Inv(s) && pid < PROCESS_LIMIT && !Registered(s, pid)
    ensures CancelChannelWait(s.channels, pid) == s.channels
  {
  }

  /** A select whose input half cannot be registered takes its channel half back. */
  lemma SelectUndone(s: State, id: nat)
    requires Inv(s) && s.sched.current != 0 && CanWait(s, Some(id), MESSAGE_MAX)
    ensures CancelChannelWait(Register(s, s.sched.current, id, MESSAGE_MAX, true).channels, s.sched.current)
              == s.channels[id := s.channels[id].(waiter := Waiter(false, s.sched.current, MESSAGE_MAX, true))]
    ensures Inv(s.(channels := s.channels[id := s.channels[id].(waiter := Waiter(false, s.sched.current, MESSAGE_MAX, true))]))
  {
    var pid := s.sched.current;
    AwakeUnregistered(s, pid);
    var s' := s.(channels := s.channels[id := s.channels[id].(waiter := Waiter(false, pid, MESSAGE_MAX, true))]);
    assert Shape(s');
    forall c | 0 <= c < CHANNEL_LIMIT
      ensures WaiterOk(s', s'.channels[c].waiter, 0) && SenderOk(s', s'.channels[c]) && MessagesOk(s'.channels[c])
    {
      assert WaiterOk(s, s.channels[c].waiter, 0) && SenderOk(s, s.channels[c]) && MessagesOk(s.channels[c]);
    }
    if s.input.waiter.Some? {
      var c :| SelectHalf(s, c, s.input.waiter.value);
      assert SelectHalf(s', c, s'.input.waiter.value);
    }
  }

  lemma SelectStart(s: State)
    requires Inv(s) && s.sched.current != 0
    ensures Shape(s) && Distinct(s) && !Registered(s, s.sched.current)
  {
    AwakeUnregistered(s, s.sched.current);
  }

  lemma SelectInv(s: State, chan: Option<nat>, delay: nat)
    requires Inv(s) && s.sched.current != 0
    ensures Inv(SysSelect(s, chan, delay).state)
  {
    var pid := s.sched.current;
    AwakeUnregistered(s, pid);
    ReceiveInv(s, chan, MESSAGE_MAX);
    CancelNothing(s, pid);
    if Receive(s, chan, MESSAGE_MAX).message == None {
      if s.input.read != s.input.write {
        QueueInv(s, s.input.(read := (s.input.read + 1) % INPUT_CAPACITY));
      } else if CanWait(s, chan, MESSAGE_MAX) {
        if s.input.waiter.Some? { SelectUndone(s, chan.value); } else { SelectOnInv(s, chan.value, delay); }
      }
    }
  }

  // ----- creating -----

  lemma CreateInv(s: State, parent: nat)
    requires Inv(s)
    ensures Inv(s.(sched := CreateUser(s.sched, parent)))
  {
    FirstUnusedSpec(s.sched.tasks, 1);
    SwitchKeepsRegistry(s, CreateUser(s.sched, parent));
  }

  lemma StartInv(s: State)
    requires Inv(s)
    ensures Inv(s.(sched := StartUsers(s.sched)))
  {
    NextReadySpec(s.sched.tasks, 0);
    SwitchKeepsRegistry(s, StartUsers(s.sched));
  }

  lemma FirstFreeSpec(cs: seq<Channel>, i: nat)
    requires i <= |cs|
    ensures var r := FirstFree(cs, i); r <= |cs| && (r < |cs| ==> !cs[r].active)
    decreases |cs| - i
  {
    if i < |cs| && cs[i].active { FirstFreeSpec(cs, i + 1); }
  }

  lemma OpenInv(s: State, owner: nat, name: seq<char>, granted: bool)
    requires Inv(s)
    ensures Inv(CreateChannel(s, owner, name, granted))
  {
    FirstFreeSpec(s.channels, 0);
    var s' := CreateChannel(s, owner, name, granted);
    assert Shape(s');
    forall c | 0 <= c < CHANNEL_LIMIT
      ensures WaiterOk(s', s'.channels[c].waiter, 0) && SenderOk(s', s'.channels[c]) && MessagesOk(s'.channels[c])
    {
      assert WaiterOk(s, s.channels[c].waiter, 0) && SenderOk(s, s.channels[c]) && MessagesOk(s.channels[c]);
    }
    if s.input.waiter.Some? {
      var c :| SelectHalf(s, c, s.input.waiter.value);
      assert SelectHalf(s', c, s'.input.waiter.value);
    }
  }

  /** One kernel entry keeps the invariant, whatever it is. */
  lemma NextInv(s: State, step: Step)
    requires Inv(s)
    ensures Inv(Next(s, step).state)
  {
    if !(UserCall(step) && s.sched.current == 0) {
      match step
      case Send(chan, data) => SendInv(s, chan, data);
      case Recv(chan, capacity, poll) =>
        ReceiveInv(s, chan, capacity);
        if CanWait(s, chan, capacity) { WaitOnInv(s, chan.value, capacity); }
      case Select(chan, delay) => SelectInv(s, chan, delay);
      case Yield => YieldInv(s);
      case Exit(code) => CleanupWhole(s, s.sched.current); ExitInv(Cleanup(s, s.sched.current), code);
      case TerminateCall(target, code) => CleanupWhole(s, target); TerminateInv(Cleanup(s, target), target, code);
      case Wait(child) => WaitInv(s, child);
      case OpenChannel(name, granted) => OpenInv(s, s.sched.current, name, granted);
      case Tick => TickInv(s);
      case Event(e) => PublishInv(s, e);
      case Kill(target, code) => TerminateInv(s, target, code);
      case Create(parent) => CreateInv(s, parent);
      case Start => StartInv(s);
      case ReapStep(parent, child) => ReapInv(s, parent, child);
      case Compute(fpu) => SwitchKeepsRegistry(s, s.sched.(cpu := fpu));
    }
  }

  /** Running a list of entries. */
  ghost function Run(s: State, steps: seq<Step>): (r: State)
    requires Shape(s)
    ensures Shape(r)
    decreases |steps|
  {
    if |steps| == 0 then s else Next(Run(s, steps[..|steps| - 1]), steps[|steps| - 1]).state
  }

  /** Every reachable state satisfies the invariant. */
  lemma {:induction false} RunInv(s: State, steps: seq<Step>)
    requires Inv(s)
    ensures Inv(Run(s, steps))
    decreases |steps|
  {
    if |steps| > 0 {
      RunInv(s, steps[..|steps| - 1]);
      NextInv(Run(s, steps[..|steps| - 1]), steps[|steps| - 1]);
    }
  }

  /** wait(0) never waits for just any child: the idle task is nobody's child, so the call is
      refused and changes nothing. */
  lemma WaitZeroRefused(s: State)
    requires Inv(s)
    ensures Next(s, Wait(0)).state == s
  {
    assert TasksOk(s.sched) && s.sched.tasks[0].parent == 0;
  }
}
