/** What becomes of a task that sleeps in a wait registry: it stays there untouched, or it is
    woken once with the result that belongs to what happened, or it is killed. The one way to
    lose a sleeper is a direct hand-off of a message longer than its buffer. */
module KernelWakes {
  import opened KernelState
  import opened KernelInvariants
  import opened KernelSteps
  import opened KernelPipes
  import opened Options

  /** `p` sleeps on channel `c`, as its waiter or as its parked sender. */
  ghost predicate At(s: State, c: nat, p: nat, parked: bool)
    requires Shape(s)
  {
    c < CHANNEL_LIMIT &&
    if parked then s.channels[c].sender.active && s.channels[c].sender.pid == p
    else s.channels[c].waiter.active && s.channels[c].waiter.pid == p
  }

  ghost predicate Asleep(s: State, c: nat, p: nat, parked: bool) {
    Shape(s) && p < PROCESS_LIMIT && At(s, c, p, parked) && s.sched.tasks[p].state == Blocked
  }

  ghost predicate Untouched(s: State, r: State, c: nat, p: nat, parked: bool) {
    && Asleep(s, c, p, parked) && Asleep(r, c, p, parked) && r.sched.tasks[p] == s.sched.tasks[p]
    && (parked ==> r.channels[c].sender == s.channels[c].sender)
    && (!parked ==> r.channels[c].waiter == s.channels[c].waiter)
  }

  ghost predicate Awake(s: State, r: State, p: nat, result: nat, detail: nat) {
    && Shape(s) && Shape(r) && p < PROCESS_LIMIT
    && (r.sched.tasks[p].state == Ready || r.sched.tasks[p].state == Running)
    && r.sched.tasks[p].result == result && r.sched.tasks[p].detail == detail
  }

  /** The saved rax and rdx that a wake caused by `step` must leave. */
  ghost function WakeResult(s: State, step: Step, c: nat, p: nat): (nat, nat)
    requires Shape(s) && c < CHANNEL_LIMIT && p < PROCESS_LIMIT
  {
    match step
    case Send(_, data) =>
      if s.channels[c].waiter.multiplex then (1, |data|) else (|data|, s.sched.current)
    case Recv(_, _, _) => (|s.channels[c].sender.data|, 0)
    case Select(_, _) => (|s.channels[c].sender.data|, 0)
    case Event(_) => (2, EVENT_BYTES)
    case Tick => (s.sched.tasks[p].timeoutResult, 0)
    case _ => (FAILURE, 0)
  }

  /** The events that must wake `p`. */
  ghost predicate Wakes(s: State, step: Step, c: nat, p: nat, parked: bool)
    requires Shape(s) && c < CHANNEL_LIMIT && p < PROCESS_LIMIT
  {
    var ch := s.channels[c];
    match step
    case Send(chan, data) => s.sched.current != 0 && !parked && chan == Some(c) && 0 < |data| <= ch.waiter.capacity
    case Recv(chan, capacity, _) =>
      s.sched.current != 0 && parked && chan == Some(c) && 0 < capacity <= MESSAGE_MAX && HeadFits(ch, capacity)
    case Select(chan, _) => s.sched.current != 0 && parked && chan == Some(c)
    case Event(e) => !parked && ch.waiter.multiplex && 1 <= e.kind <= 6
    case Tick => s.sched.tasks[p].timedWait && s.sched.tasks[p].wakeTick <= (s.sched.ticks + 1) % U64
    case Exit(_) => s.sched.current != 0 && ch.owner == s.sched.current
    case TerminateCall(target, _) => s.sched.current != 0 && ch.owner == target && target != p
    case Kill(target, code) => ch.owner == target && target != p && CanTerminate(s.sched, target) && ParentWaits(Died(s.sched, target, code), target)
    case Wait(child) => s.sched.current != 0 && ch.owner == child && CanReap(s.sched, s.sched.current, child)
    case ReapStep(parent, child) => ch.owner == child && CanReap(s.sched, parent, child)
    case _ => false
  }

  /** The hand-off that drops the message and forgets the receiver. */
  ghost predicate Strands(s: State, step: Step, c: nat, parked: bool)
    requires Shape(s) && c < CHANNEL_LIMIT
  {
    step.Send? && s.sched.current != 0 && !parked && step.chan == Some(c)
    && s.channels[c].waiter.capacity < |step.data| <= MESSAGE_MAX
  }

  predicate Kills(s: State, step: Step, p: nat) {
    (step.TerminateCall? && step.target == p && s.sched.current != 0) || (step.Kill? && step.target == p)
  }

  // ----- processor switches and the fate of a sleeper -----

  /** Dispatching may make an awake task run, but keeps what its wake left. */
  lemma RescheduleAwake(s: Sched, p: nat)
    requires MidSwitch(s) && s.tasks[s.current].state != Ready && p < PROCESS_LIMIT && s.tasks[p].state == Ready
    ensures var t := Reschedule(s).tasks[p];
            (t.state == Ready || t.state == Running) && t.result == s.tasks[p].result && t.detail == s.tasks[p].detail
  {
    var t := s.tasks[s.current];
    var s1 := if t.state == Running then SetTask(s, s.current, t.(state := Ready)) else s;
    NextReadySpec(s1.tasks, s1.current);
  }

  // ----- cleanup -----

  /** `p` waits on channel `c`; cleaning up another process `q` wakes it exactly when `q` owns `c`. */
  ghost predicate CleanFate(s: State, r: State, q: nat, c: nat, p: nat, parked: bool)
    requires Shape(s) && Shape(r) && c < CHANNEL_LIMIT
  {
    if s.channels[c].owner == q then Awake(s, r, p, FAILURE, 0) && r.sched.tasks[p].state == Ready
    else Untouched(s, r, c, p, parked) && r.channels[c].owner == s.channels[c].owner
  }

  lemma RoundOther(s: State, q: nat, i: nat, c: nat, p: nat, parked: bool)
    requires RegistryX(s, q) && Asleep(s, c, p, parked) && i < CHANNEL_LIMIT && i != c && p != q
    ensures Untouched(s, CleanChannel(s, q, i), c, p, parked)
    ensures CleanChannel(s, q, i).channels[c] == s.channels[c]
  {
    OthersChannel(s, q, i, c, p, parked);
    var s1 := s.(channels := s.channels[i := Unparked(Muted(s.channels[i], q), q)]);
    assert s1.channels[i].waiter.active ==> s1.channels[i].waiter.pid != p;
    assert s1.channels[i].sender.active ==> s1.channels[i].sender.pid != p;
    hide RegistryX;
    FailOthers(s1, i, c, p);
    hide FailWaiter, FailSender, Muted, Unparked;
  }

  lemma OthersChannel(s: State, q: nat, i: nat, c: nat, p: nat, parked: bool)
    requires RegistryX(s, q) && Asleep(s, c, p, parked) && i < CHANNEL_LIMIT && i != c && p != q
    ensures Shape(s)
    ensures s.channels[i].waiter.active ==> s.channels[i].waiter.pid != p
    ensures s.channels[i].sender.active ==> s.channels[i].sender.pid != p
  {
    if parked { assert SenderOk(s, s.channels[c]); }
  }

  lemma FailOthers(s: State, i: nat, c: nat, p: nat)
    requires Shape(s) && i < CHANNEL_LIMIT && c < CHANNEL_LIMIT && i != c && p < PROCESS_LIMIT
    requires s.channels[i].waiter.active ==> s.channels[i].waiter.pid != p
    requires s.channels[i].sender.active ==> s.channels[i].sender.pid != p
    ensures var r := FailSender(FailWaiter(s, i), i);
            r.sched.tasks[p] == s.sched.tasks[p] && r.channels[c] == s.channels[c]
  {
    assert FailWaiter(s, i).sched.tasks[p] == s.sched.tasks[p];
  }

  lemma RoundOwn(s: State, q: nat, c: nat, p: nat, parked: bool)
    requires RegistryX(s, q) && Asleep(s, c, p, parked) && p != q && p != 0
    ensures CleanFate(s, CleanChannel(s, q, c), q, c, p, parked)
  {
    var s1 := s.(channels := s.channels[c := Unparked(Muted(s.channels[c], q), q)]);
    assert s.channels[c].waiter.active && s.channels[c].sender.active ==>
             s.channels[c].waiter.pid != s.channels[c].sender.pid;
    if s.channels[c].owner == q {
      var s2 := FailWaiter(s1, c);
      assert parked ==> s2.sched.tasks[p] == s.sched.tasks[p];
      assert !parked ==> s2.sched.tasks[p] == Woken(s.sched.tasks[p], FAILURE, 0);
      var s3 := FailSender(s2, c);
      assert s3.sched.tasks[p] == Woken(s.sched.tasks[p], FAILURE, 0);
    }
  }

  /** Rounds on other channels leave an awake task alone. */
  lemma RoundAwake(s: State, q: nat, i: nat, p: nat)
    requires Shape(s) && i < CHANNEL_LIMIT && p < PROCESS_LIMIT && s.sched.tasks[p].state != Blocked
    ensures CleanChannel(s, q, i).sched.tasks[p] == s.sched.tasks[p]
  {
  }

  lemma CleanupToFate(s: State, s0: State, q: nat, n: nat, c: nat, p: nat, parked: bool)
    requires RegistryInv(s) && TasksOk(s.sched) && n <= CHANNEL_LIMIT && Asleep(s, c, p, parked) && p != q && p != 0
    requires s0 == s.(input := CancelInputWait(s.input, q))
    ensures var r := CleanupTo(s0, q, n);
            if n <= c then Untouched(s, r, c, p, parked) && r.channels[c] == s.channels[c]
            else CleanFate(s, r, q, c, p, parked)
  {
    if n > 0 {
      CleanupToFate(s, s0, q, n - 1, c, p, parked);
      CleanupToInv(s, s0, q, n - 1);
      RoundFate(s, CleanupTo(s0, q, n - 1), q, n, c, p, parked);
    }
  }

  lemma RoundFate(s: State, r: State, q: nat, n: nat, c: nat, p: nat, parked: bool)
    requires RegistryX(r, q) && 0 < n <= CHANNEL_LIMIT && Asleep(s, c, p, parked) && p != q && p != 0
    requires if n - 1 <= c then Untouched(s, r, c, p, parked) && r.channels[c] == s.channels[c]
             else CleanFate(s, r, q, c, p, parked)
    ensures var r' := CleanChannel(r, q, n - 1);
            if n <= c then Untouched(s, r', c, p, parked) && r'.channels[c] == s.channels[c]
            else CleanFate(s, r', q, c, p, parked)
  {
    hide RegistryX, CleanChannel, RingOk, InputOk;
    var r' := CleanChannel(r, q, n - 1);
    if n - 1 == c {
      RoundOwn(r, q, c, p, parked);
      FateThrough(s, r, r', q, c, p, parked);
    } else if r.sched.tasks[p].state == Blocked {
      RoundOther(r, q, n - 1, c, p, parked);
    } else {
      RoundAwake(r, q, n - 1, p);
    }
  }

  lemma FateThrough(s: State, r: State, r': State, q: nat, c: nat, p: nat, parked: bool)
    requires Untouched(s, r, c, p, parked) && Shape(r') && CleanFate(r, r', q, c, p, parked)
    requires r.channels[c] == s.channels[c]
    ensures CleanFate(s, r', q, c, p, parked)
  {
  }

  lemma CleanupFate(s: State, q: nat, c: nat, p: nat, parked: bool)
    requires RegistryInv(s) && TasksOk(s.sched) && Asleep(s, c, p, parked) && p != q && p != 0
    ensures CleanFate(s, Cleanup(s, q), q, c, p, parked)
  {
    CleanupToFate(s, s.(input := CancelInputWait(s.input, q)), q, CHANNEL_LIMIT, c, p, parked);
  }

  lemma ReleaseFate(s: State, q: nat, c: nat, p: nat, parked: bool)
    requires RegistryInv(s) && TasksOk(s.sched) && 0 < q < PROCESS_LIMIT && s.sched.tasks[q].state == Exited
    requires Asleep(s, c, p, parked) && p != 0
    ensures CleanFate(s, ReleaseSlot(s, q), q, c, p, parked)
  {
    CleanupFate(s, q, c, p, parked);
  }

  lemma WakeParentFate(s: State, q: nat, c: nat, p: nat, parked: bool)
    requires RegistryInv(s) && TasksOk(s.sched) && 0 < q < PROCESS_LIMIT && s.sched.tasks[q].state == Exited
    requires Asleep(s, c, p, parked) && p != 0
    ensures var r := WakeParent(s, q);
            if ParentWaits(s.sched, q) then CleanFate(s, r, q, c, p, parked) else Untouched(s, r, c, p, parked)
  {
    if ParentWaits(s.sched, q) {
      var parent := s.sched.tasks[q].parent;
      var t := s.sched.tasks[parent].(result := q, detail := s.sched.tasks[q].exitCode,
                                      waitingFor := None, state := Ready);
      AwakeUnregistered(s, parent);
      assert Registered(s, p);
      RegistryTask(s, parent, t);
      ReleaseFate(s.(sched := SetTask(s.sched, parent, t)), q, c, p, parked);
    }
  }

  /** Cleaning never touches a task that is already awake and belongs to someone else. */
  lemma AwakeThroughWakeParent(s: State, q: nat, p: nat)
    requires RegistryInv(s) && TasksOk(s.sched) && 0 < q < PROCESS_LIMIT && s.sched.tasks[q].state == Exited
    requires p < PROCESS_LIMIT && s.sched.tasks[p].state == Ready
    ensures WakeParent(s, q).sched.tasks[p] == s.sched.tasks[p]
  {
    if ParentWaits(s.sched, q) {
      var parent := s.sched.tasks[q].parent;
      var t := s.sched.tasks[parent].(result := q, detail := s.sched.tasks[q].exitCode,
                                      waitingFor := None, state := Ready);
      AwakeUnregistered(s, parent);
      RegistryTask(s, parent, t);
      CleanupInv(s.(sched := SetTask(s.sched, parent, t)), q);
    }
  }

  // ----- the fate of a sleeper across one step -----

  ghost predicate Fate(s: State, step: Step, r: State, c: nat, p: nat, parked: bool) {
    && Asleep(s, c, p, parked) && Shape(r)
    && if Kills(s, step, p) then r.sched.tasks[p].state == Exited || r.sched.tasks[p].state == Unused
       else if Wakes(s, step, c, p, parked)
       then var (result, detail) := WakeResult(s, step, c, p);
            Awake(s, r, p, result, detail)
       else if Strands(s, step, c, parked)
       then r.sched.tasks[p] == s.sched.tasks[p] && !Registered(r, p)
       else Untouched(s, r, c, p, parked)
  }

  lemma AsleepFacts(s: State, c: nat, p: nat, parked: bool)
    requires Inv(s) && Asleep(s, c, p, parked)
    ensures 0 < p < PROCESS_LIMIT && p != s.sched.current && Sleeping(s.sched.tasks[p]) && s.channels[c].active
    ensures Registered(s, p)
    ensures parked ==> !s.sched.tasks[p].timedWait && s.channels[c].count == QUEUE_DEPTH
    ensures forall d | 0 <= d < CHANNEL_LIMIT && s.channels[d].waiter.active && s.channels[d].waiter.pid == p :: !parked && d == c
    ensures forall d | 0 <= d < CHANNEL_LIMIT && s.channels[d].sender.active && s.channels[d].sender.pid == p :: parked && d == c
    ensures s.input.waiter == Some(p) <==> !parked && s.channels[c].waiter.multiplex
  {
    assert Registered(s, p);
    RegisteredSleeps(s, p, 0);
    if parked { assert SenderOk(s, s.channels[c]); } else { assert WaiterOk(s, s.channels[c].waiter, 0); }
    if s.input.waiter == Some(p) { var d :| SelectHalf(s, d, p); }
  }

  lemma TerminateFate(s: State, target: nat, code: nat, c: nat, p: nat, parked: bool)
    requires Inv(s) && Asleep(s, c, p, parked)
    ensures var r := Terminate(s, target, code);
            if target == p then r.sched.tasks[p].state == Exited || r.sched.tasks[p].state == Unused
            else if CanTerminate(s.sched, target) && ParentWaits(Died(s.sched, target, code), target)
            then CleanFate(s, r, target, c, p, parked)
            else Untouched(s, r, c, p, parked)
  {
    AsleepFacts(s, c, p, parked);
    if CanTerminate(s.sched, target) {
      DieInv(s, target, code);
      var s1 := s.(sched := Died(s.sched, target, code));
      WakeParentInv(s1, target);
      if target != p { WakeParentFate(s1, target, c, p, parked); }
    }
  }

  lemma AwakeTerminate(s: State, target: nat, code: nat, p: nat)
    requires Inv(s) && p < PROCESS_LIMIT && s.sched.tasks[p].state == Ready && target != p
    ensures Terminate(s, target, code).sched.tasks[p] == s.sched.tasks[p]
  {
    if CanTerminate(s.sched, target) {
      DieInv(s, target, code);
      var s1 := s.(sched := Died(s.sched, target, code));
      AwakeThroughWakeParent(s1, target, p);
    }
  }

  lemma TerminateCallFate(s: State, target: nat, code: nat, c: nat, p: nat, parked: bool)
    requires Inv(s) && Asleep(s, c, p, parked)
    ensures var r := SysTerminate(s, target, code);
            if target == p then r.sched.tasks[p].state == Exited || r.sched.tasks[p].state == Unused
            else CleanFate(s, r, target, c, p, parked)
  {
    AsleepFacts(s, c, p, parked);
    CleanupWhole(s, target);
    var s1 := Cleanup(s, target);
    if target == p {
      CleanupInv(s, p);
      DieInv(s1, p, code);
      WakeParentInv(s1.(sched := Died(s1.sched, p, code)), p);
    } else {
      CleanupFate(s, target, c, p, parked);
      if s.channels[c].owner == target {
        AwakeTerminate(s1, target, code, p);
      } else {
        TerminateFate(s1, target, code, c, p, parked);
      }
    }
  }

  lemma LeaveFate(m: Sched, p: nat)
    requires MidSwitch(m) && m.tasks[m.current].state != Ready && m.tasks[m.current].state != Running
    requires 0 < p < PROCESS_LIMIT && p != m.current && (m.tasks[p].state == Ready || m.tasks[p].state == Blocked)
    ensures var next := NextReady(m.tasks, m.current);
            next < PROCESS_LIMIT
            && var t := (if next != 0 then Dispatch(m, next) else ReturnIdle(m)).tasks[p];
               (m.tasks[p].state == Blocked ==> t == m.tasks[p])
               && (m.tasks[p].state == Ready ==>
                     (t.state == Ready || t.state == Running) && t.result == m.tasks[p].result && t.detail == m.tasks[p].detail)
  {
    NextReadySpec(m.tasks, m.current);
  }

  /** Exit after its cleanup: the sleeper's channel is not owned by the leaving task any more. */
  lemma OnExitFate(s: State, code: nat, p: nat)
    requires Inv(s) && s.sched.current != 0 && p != s.sched.current && 0 < p < PROCESS_LIMIT
    requires s.sched.tasks[p].state == Ready
    ensures var t := OnExit(s, code).sched.tasks[p];
            (t.state == Ready || t.state == Running) && t.result == s.sched.tasks[p].result && t.detail == s.sched.tasks[p].detail
  {
    var pid := s.sched.current;
    DieInv(s, pid, code);
    var s1 := s.(sched := Died(s.sched, pid, code));
    WakeParentInv(s1, pid);
    AwakeThroughWakeParent(s1, pid, p);
    LeaveFate(WakeParent(s1, pid).sched, p);
  }

  lemma OnExitAsleep(s: State, code: nat, c: nat, p: nat, parked: bool)
    requires Inv(s) && s.sched.current != 0 && Asleep(s, c, p, parked) && s.channels[c].owner != s.sched.current
    ensures Untouched(s, OnExit(s, code), c, p, parked)
  {
    AsleepFacts(s, c, p, parked);
    var pid := s.sched.current;
    DieInv(s, pid, code);
    var s1 := s.(sched := Died(s.sched, pid, code));
    WakeParentInv(s1, pid);
    WakeParentFate(s1, pid, c, p, parked);
    LeaveFate(WakeParent(s1, pid).sched, p);
  }

  lemma ExitFate(s: State, code: nat, c: nat, p: nat, parked: bool)
    requires Inv(s) && s.sched.current != 0 && Asleep(s, c, p, parked)
    ensures Fate(s, Exit(code), SysExit(s, code), c, p, parked)
  {
    AsleepFacts(s, c, p, parked);
    var pid := s.sched.current;
    CleanupWhole(s, pid);
    CleanupFate(s, pid, c, p, parked);
    if s.channels[c].owner == pid { OnExitFate(Cleanup(s, pid), code, p); }
    else { OnExitAsleep(Cleanup(s, pid), code, c, p, parked); }
  }

  // ----- ticks -----

  lemma TimeoutsFate(s: State, n: nat, c: nat, p: nat, parked: bool)
    requires Inv(s) && Asleep(s, c, p, parked) && 1 <= n <= PROCESS_LIMIT
    ensures var t := s.sched.tasks[p];
            var r := TimeoutsTo(s, n);
            if p < n && t.timedWait && t.wakeTick <= s.sched.ticks
            then r.sched.tasks[p] == Woken(t, t.timeoutResult, 0)
            else Untouched(s, r, c, p, parked)
  {
    hide Inv, TimeoutsTo, TimeoutOne, OnlyWakes, Untouched, Shape, Woken;
    AsleepFacts(s, c, p, parked);
    TimeoutsUnroll(s, n);
    if n > 1 {
      TimeoutsFate(s, n - 1, c, p, parked);
      TimeoutsInv(s, n - 1);
      TimeoutsTicks(s, n - 1);
      TimeoutFate(s, TimeoutsTo(s, n - 1), n - 1, c, p, parked);
    } else {
      StaysUntouched(s, c, p, parked);
    }
  }

  lemma StaysUntouched(s: State, c: nat, p: nat, parked: bool)
    requires Asleep(s, c, p, parked)
    ensures Untouched(s, s, c, p, parked)
  {
  }

  lemma {:induction false} TimeoutsTicks(s: State, n: nat)
    requires Shape(s) && 1 <= n <= PROCESS_LIMIT
    ensures TimeoutsTo(s, n).sched.ticks == s.sched.ticks
  {
    if n > 1 { TimeoutsTicks(s, n - 1); }
  }

  lemma TimeoutOther(r: State, pid: nat, p: nat)
    requires Shape(r) && pid < PROCESS_LIMIT && p < PROCESS_LIMIT && p != pid
    ensures TimeoutOne(r, pid).sched.tasks[p] == r.sched.tasks[p]
  {
  }

  /** One more round of the timeout loop. */
  lemma TimeoutFate(s: State, r: State, pid: nat, c: nat, p: nat, parked: bool)
    requires Inv(s) && Inv(r) && Asleep(s, c, p, parked) && 0 < pid < PROCESS_LIMIT && r.sched.ticks == s.sched.ticks
    requires var t := s.sched.tasks[p];
             if p < pid && t.timedWait && t.wakeTick <= s.sched.ticks
             then r.sched.tasks[p] == Woken(t, t.timeoutResult, 0)
             else Untouched(s, r, c, p, parked)
    ensures var t := s.sched.tasks[p];
            if p < pid + 1 && t.timedWait && t.wakeTick <= s.sched.ticks
            then TimeoutOne(r, pid).sched.tasks[p] == Woken(t, t.timeoutResult, 0)
            else Untouched(s, TimeoutOne(r, pid), c, p, parked)
  {
    var t := s.sched.tasks[p];
    if p < pid && t.timedWait && t.wakeTick <= s.sched.ticks {
      TimeoutOther(r, pid, p);
    } else {
      AsleepFacts(r, c, p, parked);
      hide Inv;
    }
  }

  /** A processor switch at the end of an entry: sleepers sleep on, the woken keep their result. */
  ghost predicate KeptAcross(s: Sched, r: Sched, p: nat) {
    && SchedShape(s) && SchedShape(r) && p < PROCESS_LIMIT
    && (Sleeping(s.tasks[p]) ==> r.tasks[p] == s.tasks[p])
    && (s.tasks[p].state == Ready ==>
          (r.tasks[p].state == Ready || r.tasks[p].state == Running)
          && r.tasks[p].result == s.tasks[p].result && r.tasks[p].detail == s.tasks[p].detail)
  }

  lemma RescheduleKept(s: Sched, p: nat)
    requires MidSwitch(s) && s.tasks[s.current].state != Ready && p < PROCESS_LIMIT
    ensures KeptAcross(s, Reschedule(s), p)
  {
    RescheduleInv(s);
    if s.tasks[p].state == Ready { RescheduleAwake(s, p); }
  }

  lemma ChargeKept(s: State, p: nat)
    requires Inv(s) && 0 < p < PROCESS_LIMIT && p != s.sched.current
    ensures KeptAcross(s.sched, ChargeTick(s.sched), p)
  {
    if s.sched.current != 0 {
      var t := s.sched.tasks[s.sched.current];
      ChargeSlice(s);
      var s1 := SetTask(s.sched, s.sched.current, t.(slice := t.slice + 1));
      if t.slice + 1 >= QUANTUM_TICKS {
        assert ChargeTick(s.sched) == Reschedule(s1);
        RescheduleKept(s1, p);
      } else {
        assert ChargeTick(s.sched) == s1;
      }
    }
  }

  lemma TickFate(s: State, c: nat, p: nat, parked: bool)
    requires Inv(s) && Asleep(s, c, p, parked)
    ensures Fate(s, Tick, OnTick(s), c, p, parked)
  {
    AsleepFacts(s, c, p, parked);
    TickStart(s);
    var s0 := s.(sched := s.sched.(ticks := (s.sched.ticks + 1) % U64));
    hide Inv, TimeoutsTo, ChargeTick, OnTick, Fate, Untouched;
    var s1 := TimeoutsWhole(s0, c, p, parked);
    TickEnd(s, s0, s1, ChargeTick(s1.sched), c, p, parked);
  }

  lemma TimeoutsWhole(s: State, c: nat, p: nat, parked: bool) returns (r: State)
    requires Inv(s) && Asleep(s, c, p, parked) && 0 < p && p != s.sched.current
    ensures r == TimeoutsTo(s, PROCESS_LIMIT) && Shape(r) && KeptAcross(r.sched, ChargeTick(r.sched), p)
    ensures var t := s.sched.tasks[p];
            if t.timedWait && t.wakeTick <= s.sched.ticks then r.sched.tasks[p] == Woken(t, t.timeoutResult, 0)
            else Untouched(s, r, c, p, parked)
  {
    r := TimeoutsTo(s, PROCESS_LIMIT);
    TimeoutsInv(s, PROCESS_LIMIT);
    TimeoutsFate(s, PROCESS_LIMIT, c, p, parked);
    ChargeKept(r, p);
  }

  lemma TickEnd(s: State, s0: State, s1: State, r: Sched, c: nat, p: nat, parked: bool)
    requires Asleep(s, c, p, parked) && Sleeping(s.sched.tasks[p]) && p != 0 && Shape(s0) && Shape(s1)
    requires s0 == s.(sched := s.sched.(ticks := (s.sched.ticks + 1) % U64)) && KeptAcross(s1.sched, r, p)
    requires var t := s.sched.tasks[p];
             if t.timedWait && t.wakeTick <= s0.sched.ticks then s1.sched.tasks[p] == Woken(t, t.timeoutResult, 0)
             else Untouched(s0, s1, c, p, parked)
    ensures Fate(s, Tick, s1.(sched := r), c, p, parked)
  {
  }

  // ----- sends, receives, selects -----

  /** Blocking the running task at the end of an entry that left the sleeper alone. */
  lemma BlockFate(s: State, s1: State, r: Sched, c: nat, p: nat, parked: bool)
    requires Untouched(s, s1, c, p, parked) && Sleeping(s.sched.tasks[p])
    requires SchedShape(r) && SleepersKept(s1.sched, r)
    ensures Untouched(s, s1.(sched := r), c, p, parked)
  {
  }

  lemma DirectFate(s: State, id: nat, data: seq<bv8>, c: nat, p: nat, parked: bool)
    requires Inv(s) && s.sched.current != 0 && Asleep(s, c, p, parked) && id < CHANNEL_LIMIT
    requires s.channels[id].active && s.channels[id].waiter.active && 0 < |data| <= MESSAGE_MAX
    ensures var step := Send(Some(id), data);
            Fate(s, step, SendImpl(s, s.sched.current, Some(id), data, true).state, c, p, parked)
  {
    AsleepFacts(s, c, p, parked);
    OneHalfIsBoth(s, id, 0);
  }

  lemma SendFate(s: State, step: Step, c: nat, p: nat, parked: bool)
    requires Inv(s) && s.sched.current != 0 && step.Send? && Asleep(s, c, p, parked)
    ensures Fate(s, step, Next(s, step).state, c, p, parked)
  {
    AsleepFacts(s, c, p, parked);
    var r := SendImpl(s, s.sched.current, step.chan, step.data, true);
    if Resolves(s, step.chan) && 0 < |step.data| <= MESSAGE_MAX && s.channels[step.chan.value].waiter.active {
      DirectFate(s, step.chan.value, step.data, c, p, parked);
    } else {
      assert !parked && step.chan == Some(c) ==> !(0 < |step.data| <= MESSAGE_MAX);
      assert Untouched(s, r.state, c, p, parked);
      if r.code == 2 {
        BlockInv(r.state.sched);
        BlockFate(s, r.state, BlockCurrent(r.state.sched), c, p, parked);
      }
    }
  }

  lemma ReceiveFate(s: State, chan: Option<nat>, capacity: nat, c: nat, p: nat, parked: bool)
    requires Inv(s) && Asleep(s, c, p, parked)
    ensures var r := Receive(s, chan, capacity).state;
            if parked && chan == Some(c) && HeadFits(s.channels[c], capacity)
            then r.sched.tasks[p] == Woken(s.sched.tasks[p], |s.channels[c].sender.data|, 0)
            else Untouched(s, r, c, p, parked)
  {
    AsleepFacts(s, c, p, parked);
  }

  lemma RecvFate(s: State, step: Step, c: nat, p: nat, parked: bool)
    requires Inv(s) && s.sched.current != 0 && step.Recv? && Asleep(s, c, p, parked)
    ensures Fate(s, step, Next(s, step).state, c, p, parked)
  {
    AsleepFacts(s, c, p, parked);
    ReceiveFate(s, step.chan, step.capacity, c, p, parked);
    if Next(s, step).delivered == None && CanWait(s, step.chan, step.capacity) && !step.poll {
      var s1 := Register(s, s.sched.current, step.chan.value, step.capacity, false);
      assert Untouched(s, s1, c, p, parked);
      BlockInv(s.sched);
      BlockFate(s, s1, BlockCurrent(s.sched), c, p, parked);
    }
  }

  lemma SelectFate(s: State, step: Step, c: nat, p: nat, parked: bool)
    requires Inv(s) && s.sched.current != 0 && step.Select? && Asleep(s, c, p, parked)
    ensures Fate(s, step, Next(s, step).state, c, p, parked)
  {
    AsleepFacts(s, c, p, parked);
    ReceiveFate(s, step.chan, MESSAGE_MAX, c, p, parked);
    if parked { assert MessagesOk(s.channels[c]); }
    if Next(s, step).delivered == None && s.input.read == s.input.write && CanWait(s, step.chan, MESSAGE_MAX) {
      SelectWaitFate(s, step, c, p, parked);
    }
  }

  lemma SelectWaitFate(s: State, step: Step, c: nat, p: nat, parked: bool)
    requires Inv(s) && s.sched.current != 0 && step.Select? && Asleep(s, c, p, parked)
    requires Receive(s, step.chan, MESSAGE_MAX).message == None
    requires s.input.read == s.input.write && CanWait(s, step.chan, MESSAGE_MAX)
    ensures Untouched(s, Next(s, step).state, c, p, parked)
  {
    AsleepFacts(s, c, p, parked);
    var s1 := Register(s, s.sched.current, step.chan.value, MESSAGE_MAX, true);
    assert Untouched(s, s1, c, p, parked);
    if s.input.waiter == None {
      var s2 := s1.(input := s.input.(waiter := Some(s.sched.current)));
      if step.delay != 0 {
        BlockTimeoutInv(s.sched, step.delay, 3);
        BlockFate(s, s2, BlockCurrentTimeout(s.sched, step.delay, 3), c, p, parked);
      } else {
        BlockInv(s.sched);
        BlockFate(s, s2, BlockCurrent(s.sched), c, p, parked);
      }
    }
  }

  lemma WaitFate(s: State, child: nat, c: nat, p: nat, parked: bool)
    requires Inv(s) && s.sched.current != 0 && Asleep(s, c, p, parked)
    ensures Fate(s, Wait(child), OnWait(s, child), c, p, parked)
  {
    AsleepFacts(s, c, p, parked);
    var pid := s.sched.current;
    if CanReap(s.sched, pid, child) {
      ReleaseFate(s, child, c, p, parked);
    } else if child < PROCESS_LIMIT && s.sched.tasks[child].parent == pid && s.sched.tasks[child].state != Unused {
      var t := s.sched.tasks[pid].(state := Blocked, waitingFor := Some(child));
      SuspendInv(s.sched, t);
    }
  }

  lemma EventFate(s: State, e: KernelState.Event, c: nat, p: nat, parked: bool)
    requires Inv(s) && Asleep(s, c, p, parked)
    ensures Fate(s, Step.Event(e), Publish(s, e), c, p, parked)
  {
    AsleepFacts(s, c, p, parked);
  }

  lemma OtherFate(s: State, step: Step, c: nat, p: nat, parked: bool)
    requires Inv(s) && Asleep(s, c, p, parked)
    requires step.OpenChannel? || step.Create? || step.Start?
    ensures Untouched(s, Next(s, step).state, c, p, parked)
  {
    AsleepFacts(s, c, p, parked);
    if step.OpenChannel? {
      FirstFreeSpec(s.channels, 0);
    } else if step.Create? {
      FirstUnusedSpec(s.sched.tasks, 1);
    } else {
      NextReadySpec(s.sched.tasks, 0);
    }
  }

  lemma YieldFate(s: State, c: nat, p: nat, parked: bool)
    requires Inv(s) && Asleep(s, c, p, parked) && s.sched.current != 0
    ensures Untouched(s, OnYield(s), c, p, parked)
  {
    AsleepFacts(s, c, p, parked);
    RescheduleInv(s.sched);
    BlockFate(s, s, Reschedule(s.sched), c, p, parked);
  }

  /** The complete table of what one kernel entry can do to a sleeping registered task. */
  lemma SleeperFate(s: State, step: Step, c: nat, p: nat, parked: bool)
    requires Inv(s) && Asleep(s, c, p, parked)
    ensures Fate(s, step, Next(s, step).state, c, p, parked)
  {
    if UserCall(step) && s.sched.current == 0 {
    } else {
      match step
      case Send(_, _) => SendFate(s, step, c, p, parked);
      case Recv(_, _, _) => RecvFate(s, step, c, p, parked);
      case Select(_, _) => SelectFate(s, step, c, p, parked);
      case Exit(code) => ExitFate(s, code, c, p, parked);
      case TerminateCall(target, code) => TerminateCallFate(s, target, code, c, p, parked);
      case Wait(child) => WaitFate(s, child, c, p, parked);
      case Tick => TickFate(s, c, p, parked);
      case Kill(target, code) => TerminateFate(s, target, code, c, p, parked);
      case ReapStep(parent, child) => AsleepFacts(s, c, p, parked);
        if CanReap(s.sched, parent, child) { ReleaseFate(s, child, c, p, parked); }
      case Yield => YieldFate(s, c, p, parked);
      case OpenChannel(_, _) => OtherFate(s, step, c, p, parked);
      case Event(e) => EventFate(s, e, c, p, parked);
      case Create(_) => OtherFate(s, step, c, p, parked);
      case Start => OtherFate(s, step, c, p, parked);
      case Compute(_) =>
    }
  }

  /** A woken task is in no registry: neither half of a two-way select can fire again. */
  lemma WokenOnce(s: State, step: Step, c: nat, p: nat, parked: bool)
    requires Inv(s) && Asleep(s, c, p, parked) && Next(s, step).state.sched.tasks[p].state != Blocked
    requires !Kills(s, step, p)
    ensures Wakes(s, step, c, p, parked) && !Registered(Next(s, step).state, p)
  {
    SleeperFate(s, step, c, p, parked);
    NextInv(s, step);
    AwakeUnregistered(Next(s, step).state, p);
  }

  /** A two-way select can never be stranded: its message buffer takes any message. */
  lemma SelectNeverStranded(s: State, step: Step, c: nat)
    requires Inv(s) && c < CHANNEL_LIMIT && s.channels[c].waiter.active && s.channels[c].waiter.multiplex
    ensures !Strands(s, step, c, false)
  {
    assert WaiterOk(s, s.channels[c].waiter, 0);
  }
}
