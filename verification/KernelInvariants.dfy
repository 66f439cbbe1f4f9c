/** What every kernel entry keeps: one running task, and a wait registry whose entries
    are always sleeping tasks, so that a wake can never be delivered twice. */
module KernelInvariants {
  import opened KernelState
  import opened Options

  /** Asleep for IPC, input or a timer, or dead but not yet reaped. */
  predicate Sleeping(t: Task) {
    (t.state == Blocked || t.state == Exited) && t.waitingFor == None
  }

  ghost predicate TasksOk(s: Sched) {
    && SchedShape(s)
    && (forall p | 0 <= p < PROCESS_LIMIT :: s.tasks[p].timedWait ==> Sleeping(s.tasks[p]))
    && (forall p | 0 <= p < PROCESS_LIMIT ::
          s.tasks[p].state == Ready || s.tasks[p].state == Running ==> s.tasks[p].waitingFor == None)
    && (s.tasks[0].state == Ready || s.tasks[0].state == Running) && s.tasks[0].parent == 0
  }

  /** Exactly one task is running and it is `current`. */
  ghost predicate SchedInv(s: Sched) {
    && TasksOk(s)
    && (forall p | 0 <= p < PROCESS_LIMIT :: s.tasks[p].state == Running <==> p == s.current)
    && (s.usersRunning <==> s.current != 0)
    && (s.usersRunning ==> s.tasks[s.current].slice < QUANTUM_TICKS)
  }

  /** Inside an entry, once the running task has given up the processor. */
  ghost predicate MidSwitch(s: Sched) {
    && TasksOk(s) && s.current != 0 && s.usersRunning
    && (forall p | 0 <= p < PROCESS_LIMIT :: s.tasks[p].state == Running ==> p == s.current)
  }

  /** `skip` is 0, or the task whose input half ipc_process_cleanup has already removed. */
  ghost predicate WaiterOk(s: State, w: Waiter, skip: nat)
    requires Shape(s)
  {
    w.active ==>
      && 0 < w.pid < PROCESS_LIMIT && Sleeping(s.sched.tasks[w.pid]) && 0 < w.capacity <= MESSAGE_MAX
      && (w.multiplex ==> w.capacity == MESSAGE_MAX)
      && (!w.multiplex ==> !s.sched.tasks[w.pid].timedWait)
      && (w.multiplex && w.pid != skip ==> s.input.waiter == Some(w.pid))
  }

  ghost predicate SenderOk(s: State, c: Channel)
    requires Shape(s)
  {
    c.sender.active ==>
      && 0 < c.sender.pid < PROCESS_LIMIT && Sleeping(s.sched.tasks[c.sender.pid])
      && !s.sched.tasks[c.sender.pid].timedWait
      && c.count == QUEUE_DEPTH && 0 < |c.sender.data| <= MESSAGE_MAX
  }

  ghost predicate MessagesOk(c: Channel)
    requires RingOk(c)
  {
    && (!c.active ==> c.count == 0)
    && (forall i | 0 <= i < QUEUE_DEPTH :: |c.messages[i].data| <= MESSAGE_MAX)
  }

  ghost predicate InputWaiterOk(s: State)
    requires Shape(s)
  {
    s.input.waiter.Some? ==>
      && 0 < s.input.waiter.value < PROCESS_LIMIT && Sleeping(s.sched.tasks[s.input.waiter.value])
      && exists c :: SelectHalf(s, c, s.input.waiter.value)
  }

  /** Channel `c` holds the channel half of `pid`'s two-way select. */
  ghost predicate SelectHalf(s: State, c: int, pid: nat)
    requires Shape(s)
  {
    0 <= c < CHANNEL_LIMIT && s.channels[c].waiter.active && s.channels[c].waiter.multiplex
    && s.channels[c].waiter.pid == pid
  }

  ghost predicate Distinct(s: State)
    requires Shape(s)
  {
    && (forall c, d | 0 <= c < d < CHANNEL_LIMIT ::
          s.channels[c].waiter.active && s.channels[d].waiter.active ==>
            s.channels[c].waiter.pid != s.channels[d].waiter.pid)
    && (forall c, d | 0 <= c < d < CHANNEL_LIMIT ::
          s.channels[c].sender.active && s.channels[d].sender.active ==>
            s.channels[c].sender.pid != s.channels[d].sender.pid)
    && (forall c, d | 0 <= c < CHANNEL_LIMIT && 0 <= d < CHANNEL_LIMIT ::
          s.channels[c].waiter.active && s.channels[d].sender.active ==>
            s.channels[c].waiter.pid != s.channels[d].sender.pid)
    && (forall d | 0 <= d < CHANNEL_LIMIT ::
          s.input.waiter.Some? && s.channels[d].sender.active ==> s.channels[d].sender.pid != s.input.waiter.value)
  }

  ghost predicate RegistryX(s: State, skip: nat) {
    && Shape(s)
    && (forall c | 0 <= c < CHANNEL_LIMIT :: WaiterOk(s, s.channels[c].waiter, skip))
    && (forall c | 0 <= c < CHANNEL_LIMIT :: SenderOk(s, s.channels[c]))
    && (forall c | 0 <= c < CHANNEL_LIMIT :: MessagesOk(s.channels[c]))
    && InputWaiterOk(s)
    && Distinct(s)
  }

  ghost predicate RegistryInv(s: State) { RegistryX(s, 0) }

  ghost predicate Inv(s: State) { RegistryInv(s) && SchedInv(s.sched) }

  /** `pid` appears in some wait registry: as a channel waiter, a parked sender or the input waiter. */
  ghost predicate Registered(s: State, pid: nat)
    requires Shape(s)
  {
    || s.input.waiter == Some(pid)
    || (exists c | 0 <= c < CHANNEL_LIMIT :: s.channels[c].waiter.active && s.channels[c].waiter.pid == pid)
    || (exists c | 0 <= c < CHANNEL_LIMIT :: s.channels[c].sender.active && s.channels[c].sender.pid == pid)
  }

  // ----- the scheduler alone -----

  lemma CandidateDistance(after: nat, n: nat)
    requires after < PROCESS_LIMIT && 1 <= n < PROCESS_LIMIT
    ensures 1 <= Candidate(after, n) < PROCESS_LIMIT && Distance(after, Candidate(after, n)) == n
  {
  }

  lemma NextReadyFromSpec(tasks: seq<Task>, after: nat, n: nat)
    requires |tasks| == PROCESS_LIMIT && 1 <= n <= PROCESS_LIMIT && after < PROCESS_LIMIT
    ensures var r := NextReadyFrom(tasks, after, n);
            && r < PROCESS_LIMIT
            && (r != 0 ==> tasks[r].state == Ready && n <= Distance(after, r))
            && (forall p | 1 <= p < PROCESS_LIMIT && tasks[p].state == Ready && n <= Distance(after, p) ::
                  r != 0 && Distance(after, r) <= Distance(after, p))
    decreases PROCESS_LIMIT - n
  {
    if n < PROCESS_LIMIT {
      CandidateDistance(after, n);
      if tasks[Candidate(after, n)].state != Ready {
        NextReadyFromSpec(tasks, after, n + 1);
        forall p | 1 <= p < PROCESS_LIMIT && tasks[p].state == Ready && n <= Distance(after, p)
          ensures n + 1 <= Distance(after, p)
        {
          assert Candidate(after, Distance(after, p)) == p;
        }
      }
    }
  }

  /** next_ready returns the ready task at the least cyclic distance, and 0 only if none is ready. */
  lemma NextReadySpec(tasks: seq<Task>, after: nat)
    requires |tasks| == PROCESS_LIMIT && after < PROCESS_LIMIT
    ensures var r := NextReady(tasks, after);
            && r < PROCESS_LIMIT
            && (r != 0 ==> tasks[r].state == Ready)
            && (forall p | 1 <= p < PROCESS_LIMIT && tasks[p].state == Ready ::
                  r != 0 && Distance(after, r) <= Distance(after, p))
  {
    NextReadyFromSpec(tasks, after, 1);
  }

  /** Tasks asleep before a processor switch are untouched by it. */
  ghost predicate SleepersKept(s: Sched, r: Sched) {
    |s.tasks| == |r.tasks| && forall p | 0 <= p < |s.tasks| && Sleeping(s.tasks[p]) :: r.tasks[p] == s.tasks[p]
  }

  /** One turn of the scan. */
  lemma ScanStep(tasks: seq<Task>, after: nat, n: nat)
    requires |tasks| == PROCESS_LIMIT && 1 <= n < PROCESS_LIMIT
    ensures var pid := 1 + (after + n - 1) % (PROCESS_LIMIT - 1);
            NextReadyFrom(tasks, after, n) ==
            if tasks[pid].state == Ready then pid else NextReadyFrom(tasks, after, n + 1)
  {
  }

  lemma ScanBounds(tasks: seq<Task>, after: nat)
    requires |tasks| == PROCESS_LIMIT
    ensures NextReady(tasks, after) == NextReadyFrom(tasks, after, 1)
    ensures NextReadyFrom(tasks, after, PROCESS_LIMIT) == 0
    ensures after < PROCESS_LIMIT ==> NextReady(tasks, after) < PROCESS_LIMIT
  {
    if after < PROCESS_LIMIT { NextReadySpec(tasks, after); }
  }

  lemma RescheduleInv(s: Sched)
    requires MidSwitch(s)
    requires s.tasks[s.current].state != Ready
    ensures SchedInv(Reschedule(s)) && SleepersKept(s, Reschedule(s))
  {
    var t := s.tasks[s.current];
    var s1 := if t.state == Running then SetTask(s, s.current, t.(state := Ready)) else s;
    NextReadySpec(s1.tasks, s1.current);
  }

  lemma SuspendInv(s: Sched, t: Task)
    requires SchedInv(s) && s.current != 0 && t.state == Blocked && (t.timedWait ==> t.waitingFor == None)
    ensures var r := Reschedule(SetTask(s, s.current, t));
            SchedInv(r) && SleepersKept(s, r) && (Sleeping(t) ==> r.tasks[s.current] == t)
  {
    var b := SetTask(s, s.current, t);
    assert MidSwitch(b);
    RescheduleInv(b);
  }

  lemma BlockInv(s: Sched)
    requires SchedInv(s) && s.current != 0
    ensures var r := BlockCurrent(s);
            SchedInv(r) && SleepersKept(s, r) && Sleeping(r.tasks[s.current]) && !r.tasks[s.current].timedWait
  {
    SuspendInv(s, s.tasks[s.current].(state := Blocked, waitingFor := None));
  }

  lemma BlockTimeoutInv(s: Sched, delay: nat, result: nat)
    requires SchedInv(s) && s.current != 0 && delay != 0
    ensures var r := BlockCurrentTimeout(s, delay, result);
            SchedInv(r) && SleepersKept(s, r) && Sleeping(r.tasks[s.current])
  {
    var t := TimedSleep(s.tasks[s.current], s.ticks, delay, result);
    assert BlockCurrentTimeout(s, delay, result) == Reschedule(SetTask(s, s.current, t));
    SuspendInv(s, t);
  }

  lemma WakeInv(s: Sched, pid: nat, result: nat, detail: nat)
    requires TasksOk(s)
    ensures TasksOk(Wake(s, pid, result, detail))
    ensures SchedInv(s) ==> SchedInv(Wake(s, pid, result, detail))
    ensures MidSwitch(s) ==> MidSwitch(Wake(s, pid, result, detail))
  {
  }

  lemma FirstUnusedSpec(tasks: seq<Task>, pid: nat)
    requires |tasks| == PROCESS_LIMIT && 1 <= pid <= PROCESS_LIMIT
    ensures var r := FirstUnused(tasks, pid); r < PROCESS_LIMIT && (r != 0 ==> tasks[r].state == Unused)
    decreases PROCESS_LIMIT - pid
  {
    if pid < PROCESS_LIMIT && tasks[pid].state != Unused { FirstUnusedSpec(tasks, pid + 1); }
  }

  // ----- the registry -----

  /** The registry only looks at sleeping tasks, so it survives any processor switch. */
  lemma RegistryFrame(s: State, r: Sched, skip: nat)
    requires RegistryX(s, skip) && SchedShape(r)
    requires forall p | 0 <= p < PROCESS_LIMIT && Registered(s, p) :: r.tasks[p] == s.sched.tasks[p]
    ensures RegistryX(s.(sched := r), skip)
  {
    var s' := s.(sched := r);
    assert Shape(s');
    forall c | 0 <= c < CHANNEL_LIMIT
      ensures WaiterOk(s', s'.channels[c].waiter, skip) && SenderOk(s', s'.channels[c])
    {
      assert WaiterOk(s, s.channels[c].waiter, skip) && SenderOk(s, s.channels[c]);
      if s.channels[c].waiter.active { assert Registered(s, s.channels[c].waiter.pid); }
      if s.channels[c].sender.active { assert Registered(s, s.channels[c].sender.pid); }
    }
    if s.input.waiter.Some? {
      var c :| SelectHalf(s, c, s.input.waiter.value);
      assert SelectHalf(s', c, s'.input.waiter.value);
    }
  }

  /** Registered tasks sleep; so a wake, which makes its task ready, finds it registered at most once. */
  lemma RegisteredSleeps(s: State, pid: nat, skip: nat)
    requires RegistryX(s, skip) && Registered(s, pid)
    ensures 0 < pid < PROCESS_LIMIT && Sleeping(s.sched.tasks[pid])
  {
    if s.input.waiter != Some(pid) {
      if c :| 0 <= c < CHANNEL_LIMIT && s.channels[c].waiter.active && s.channels[c].waiter.pid == pid {
        assert WaiterOk(s, s.channels[c].waiter, skip);
      } else {
        var c :| 0 <= c < CHANNEL_LIMIT && s.channels[c].sender.active && s.channels[c].sender.pid == pid;
        assert SenderOk(s, s.channels[c]);
      }
    }
  }

  lemma SwitchKeepsRegistry(s: State, r: Sched)
    requires RegistryInv(s) && SchedShape(r) && SleepersKept(s.sched, r)
    ensures RegistryInv(s.(sched := r))
  {
    forall p | 0 <= p < PROCESS_LIMIT && Registered(s, p)
      ensures r.tasks[p] == s.sched.tasks[p]
    {
      RegisteredSleeps(s, p, 0);
    }
    RegistryFrame(s, r, 0);
  }

  lemma AwakeUnregistered(s: State, pid: nat)
    requires RegistryInv(s) && pid < PROCESS_LIMIT && !Sleeping(s.sched.tasks[pid])
    ensures !Registered(s, pid)
  {
    if Registered(s, pid) { RegisteredSleeps(s, pid, 0); }
  }

  /** A task in no registry may change freely. */
  lemma RegistryTask(s: State, pid: nat, t: Task)
    requires RegistryInv(s) && pid < PROCESS_LIMIT && !Registered(s, pid)
    ensures RegistryInv(s.(sched := SetTask(s.sched, pid, t)))
  {
    RegistryFrame(s, SetTask(s.sched, pid, t), 0);
  }

  /** Waking a task that has been taken out of every registry. */
  lemma WakeKeepsRegistry(s: State, pid: nat, result: nat, detail: nat, skip: nat)
    requires RegistryX(s, skip) && !Registered(s, pid) && TasksOk(s.sched)
    ensures RegistryX(s.(sched := Wake(s.sched, pid, result, detail)), skip)
  {
    RegistryFrame(s, Wake(s.sched, pid, result, detail), skip);
  }

  /** Removing both halves of a task's waits: input queue and channels. */
  ghost function CancelBoth(s: State, pid: nat): State
    requires Shape(s)
  {
    s.(channels := CancelChannelWait(s.channels, pid), input := CancelInputWait(s.input, pid))
  }

  lemma CancelBothDistinct(s: State, pid: nat)
    requires Shape(s) && Distinct(s)
    ensures Shape(CancelBoth(s, pid)) && Distinct(CancelBoth(s, pid))
  {
  }

  lemma CancelBothInv(s: State, pid: nat, skip: nat)
    requires RegistryX(s, skip)
    ensures RegistryX(CancelBoth(s, pid), skip)
    ensures CancelBoth(s, pid).input.waiter != Some(pid)
    ensures forall c | 0 <= c < CHANNEL_LIMIT ::
              var w := CancelBoth(s, pid).channels[c].waiter; !(w.active && w.pid == pid)
  {
    var s' := CancelBoth(s, pid);
    CancelBothDistinct(s, pid);
    forall c | 0 <= c < CHANNEL_LIMIT
      ensures WaiterOk(s', s'.channels[c].waiter, skip) && SenderOk(s', s'.channels[c]) && MessagesOk(s'.channels[c])
    {
      assert WaiterOk(s, s.channels[c].waiter, skip) && SenderOk(s, s.channels[c]) && MessagesOk(s.channels[c]);
    }
    if s'.input.waiter.Some? {
      var c :| SelectHalf(s, c, s.input.waiter.value);
      assert SelectHalf(s', c, s'.input.waiter.value);
    }
  }

  /** Clearing the one waiter record a sender looks at, and the input half only for a two-way
      wait, already removes every trace of that waiter. */
  lemma OneHalfIsBoth(s: State, id: nat, skip: nat)
    requires RegistryX(s, skip) && id < CHANNEL_LIMIT && s.channels[id].waiter.active
    ensures var w := s.channels[id].waiter;
            s.(channels := s.channels[id := s.channels[id].(waiter := w.(active := false))],
               input := if w.multiplex then CancelInputWait(s.input, w.pid) else s.input) == CancelBoth(s, w.pid)
    ensures forall c | 0 <= c < CHANNEL_LIMIT :: s.channels[c].sender.active ==> s.channels[c].sender.pid != s.channels[id].waiter.pid
    ensures !Registered(CancelBoth(s, s.channels[id].waiter.pid), s.channels[id].waiter.pid)
    ensures RegistryX(CancelBoth(s, s.channels[id].waiter.pid), skip)
  {
    var w := s.channels[id].waiter;
    var one := s.channels[id := s.channels[id].(waiter := w.(active := false))];
    var all := CancelChannelWait(s.channels, w.pid);
    forall c | 0 <= c < CHANNEL_LIMIT
      ensures one[c] == all[c]
    {
    }
    assert one == all;
    if s.input.waiter == Some(w.pid) {
      var c :| SelectHalf(s, c, w.pid);
      assert c == id;
    }
    CancelBothInv(s, w.pid, skip);
  }

  /** Replacing a channel's queue, keeping who waits on it. */
  lemma ReplaceRing(s: State, id: nat, c': Channel, skip: nat)
    requires RegistryX(s, skip) && id < CHANNEL_LIMIT
    requires RingOk(c') && MessagesOk(c') && c'.waiter == s.channels[id].waiter && c'.sender == s.channels[id].sender
    requires c'.sender.active ==> c'.count == QUEUE_DEPTH
    ensures RegistryX(s.(channels := s.channels[id := c']), skip)
  {
    var s' := s.(channels := s.channels[id := c']);
    assert Shape(s');
    forall c | 0 <= c < CHANNEL_LIMIT
      ensures WaiterOk(s', s'.channels[c].waiter, skip) && SenderOk(s', s'.channels[c]) && MessagesOk(s'.channels[c])
    {
      assert WaiterOk(s, s.channels[c].waiter, skip) && SenderOk(s, s.channels[c]) && MessagesOk(s.channels[c]);
    }
    if s.input.waiter.Some? {
      var c :| SelectHalf(s, c, s.input.waiter.value);
      assert SelectHalf(s', c, s'.input.waiter.value);
    }
  }

  /** Clearing a parked sender takes that task out of every registry. */
  lemma DropSender(s: State, id: nat, skip: nat)
    requires RegistryX(s, skip) && id < CHANNEL_LIMIT && s.channels[id].sender.active
    ensures var c := s.channels[id];
            var s' := s.(channels := s.channels[id := c.(sender := c.sender.(active := false))]);
            RegistryX(s', skip) && !Registered(s', c.sender.pid)
  {
    var c := s.channels[id];
    var s' := s.(channels := s.channels[id := c.(sender := c.sender.(active := false))]);
    assert Shape(s');
    forall d | 0 <= d < CHANNEL_LIMIT
      ensures WaiterOk(s', s'.channels[d].waiter, skip) && SenderOk(s', s'.channels[d]) && MessagesOk(s'.channels[d])
    {
      DropSenderAt(s, id, skip, d);
    }
    DropSenderInput(s, id, skip);
    hide WaiterOk, SenderOk, MessagesOk, RingOk, InputWaiterOk;
  }

  lemma DropSenderAt(s: State, id: nat, skip: nat, d: nat)
    requires RegistryX(s, skip) && id < CHANNEL_LIMIT && s.channels[id].sender.active && d < CHANNEL_LIMIT
    ensures var c := s.channels[id];
            var s' := s.(channels := s.channels[id := c.(sender := c.sender.(active := false))]);
            WaiterOk(s', s'.channels[d].waiter, skip) && SenderOk(s', s'.channels[d]) && MessagesOk(s'.channels[d])
  {
    assert WaiterOk(s, s.channels[d].waiter, skip) && SenderOk(s, s.channels[d]) && MessagesOk(s.channels[d]);
  }

  lemma DropSenderInput(s: State, id: nat, skip: nat)
    requires RegistryX(s, skip) && id < CHANNEL_LIMIT && s.channels[id].sender.active
    ensures var c := s.channels[id];
            InputWaiterOk(s.(channels := s.channels[id := c.(sender := c.sender.(active := false))]))
  {
    var c := s.channels[id];
    var s' := s.(channels := s.channels[id := c.(sender := c.sender.(active := false))]);
    assert InputWaiterOk(s);
    if s.input.waiter.Some? {
      var d :| SelectHalf(s, d, s.input.waiter.value);
      assert SelectHalf(s', d, s'.input.waiter.value);
    }
  }

  // ----- registering: the task is already blocked when these apply -----

  lemma AddSender(s: State, id: nat, pid: nat, data: seq<bv8>)
    requires RegistryInv(s) && id < CHANNEL_LIMIT && 0 < pid < PROCESS_LIMIT
    requires Sleeping(s.sched.tasks[pid]) && !s.sched.tasks[pid].timedWait && !Registered(s, pid)
    requires s.channels[id].active && !s.channels[id].sender.active && s.channels[id].count == QUEUE_DEPTH
    requires 0 < |data| <= MESSAGE_MAX
    ensures RegistryInv(s.(channels := s.channels[id := s.channels[id].(sender := ParkedSender(true, pid, data))]))
  {
    var s' := s.(channels := s.channels[id := s.channels[id].(sender := ParkedSender(true, pid, data))]);
    assert Shape(s');
    forall d | 0 <= d < CHANNEL_LIMIT
      ensures WaiterOk(s', s'.channels[d].waiter, 0) && SenderOk(s', s'.channels[d]) && MessagesOk(s'.channels[d])
    {
      assert WaiterOk(s, s.channels[d].waiter, 0) && SenderOk(s, s.channels[d]) && MessagesOk(s.channels[d]);
    }
    if s.input.waiter.Some? {
      var d :| SelectHalf(s, d, s.input.waiter.value);
      assert SelectHalf(s', d, s'.input.waiter.value);
    }
  }

  lemma AddWaiterDistinct(s: State, id: nat, pid: nat, capacity: nat, multiplex: bool)
    requires Shape(s) && Distinct(s) && id < CHANNEL_LIMIT && s.channels[id].active && !Registered(s, pid)
    requires multiplex ==> s.input.waiter == None
    ensures var s1 := Register(s, pid, id, capacity, multiplex);
            var s' := if multiplex then s1.(input := s1.input.(waiter := Some(pid))) else s1;
            Shape(s') && Distinct(s')
  {
  }

  lemma AddWaiter(s: State, id: nat, pid: nat, capacity: nat, multiplex: bool)
    requires RegistryInv(s) && id < CHANNEL_LIMIT && 0 < pid < PROCESS_LIMIT
    requires Sleeping(s.sched.tasks[pid]) && !Registered(s, pid)
    requires s.channels[id].active && !s.channels[id].waiter.active && 0 < capacity <= MESSAGE_MAX
    requires multiplex ==> capacity == MESSAGE_MAX && s.input.waiter == None
    requires !multiplex ==> !s.sched.tasks[pid].timedWait
    ensures var s1 := Register(s, pid, id, capacity, multiplex);
            RegistryInv(if multiplex then s1.(input := s1.input.(waiter := Some(pid))) else s1)
  {
    var s1 := Register(s, pid, id, capacity, multiplex);
    var s' := if multiplex then s1.(input := s1.input.(waiter := Some(pid))) else s1;
    AddWaiterDistinct(s, id, pid, capacity, multiplex);
    forall d | 0 <= d < CHANNEL_LIMIT
      ensures WaiterOk(s', s'.channels[d].waiter, 0) && SenderOk(s', s'.channels[d]) && MessagesOk(s'.channels[d])
    {
      assert WaiterOk(s, s.channels[d].waiter, 0) && SenderOk(s, s.channels[d]) && MessagesOk(s.channels[d]);
    }
    if multiplex {
      assert SelectHalf(s', id, pid);
    } else if s.input.waiter.Some? {
      var d :| SelectHalf(s, d, s.input.waiter.value);
      assert SelectHalf(s', d, s'.input.waiter.value);
    }
  }
}
