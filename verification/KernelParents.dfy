/** Parents asleep in wait: a parent waits only for a live child of its own, so no exit is ever
    missed, and nothing but that child's end or its own death disturbs it. */
module KernelParents {
  import opened KernelState
  import opened KernelInvariants
  import opened KernelSteps
  import opened KernelFairness
  import opened Options

  /** Asleep in scheduler_on_wait. */
  predicate InWait(t: Task) { t.state == Blocked && t.waitingFor.Some? }

  predicate Gone(t: Task) { t.state == Exited || t.state == Unused }

  /** `p` sleeps until `c` ends. */
  predicate Awaits(s: Sched, p: nat, c: nat)
    requires SchedShape(s)
  {
    0 < p < PROCESS_LIMIT && InWait(s.tasks[p]) && s.tasks[p].waitingFor == Some(c)
  }

  ghost predicate ChildOk(s: Sched, p: nat)
    requires SchedShape(s) && p < PROCESS_LIMIT
  {
    InWait(s.tasks[p]) ==>
      var c := s.tasks[p].waitingFor.value;
      p != 0 && 0 < c < PROCESS_LIMIT && s.tasks[c].parent == p && !Gone(s.tasks[c])
  }

  /** Every waiting parent waits for a child of its own that has not ended. */
  ghost predicate ParentsOk(s: Sched) {
    SchedShape(s) && forall p | 0 <= p < PROCESS_LIMIT :: ChildOk(s, p)
  }

  // ----- changes that leave families alone -----

  /** Nobody's parent changes, nobody ends or appears, waiting parents stay as they are and no task
      starts to wait. */
  ghost predicate Kin(s: Sched, r: Sched) {
    && SchedShape(s) && SchedShape(r)
    && (forall p | 0 <= p < PROCESS_LIMIT :: KinAt(s.tasks[p], r.tasks[p]))
  }

  predicate KinAt(t: Task, u: Task) {
    u.parent == t.parent && (Gone(u) <==> Gone(t)) && (InWait(t) || InWait(u) ==> u == t)
  }

  lemma KinTrans(a: Sched, b: Sched, c: Sched)
    requires Kin(a, b) && Kin(b, c)
    ensures Kin(a, c)
  {
    forall p | 0 <= p < PROCESS_LIMIT ensures KinAt(a.tasks[p], c.tasks[p]) {
      assert KinAt(a.tasks[p], b.tasks[p]) && KinAt(b.tasks[p], c.tasks[p]);
    }
  }

  lemma KinKeeps(s: Sched, r: Sched)
    requires Kin(s, r) && ParentsOk(s)
    ensures ParentsOk(r)
  {
    forall p | 0 <= p < PROCESS_LIMIT ensures ChildOk(r, p) {
      assert KinAt(s.tasks[p], r.tasks[p]) && ChildOk(s, p);
      if InWait(r.tasks[p]) {
        var c := r.tasks[p].waitingFor.value;
        assert KinAt(s.tasks[c], r.tasks[c]);
      }
    }
  }

  lemma SameTasks(s: Sched, r: Sched)
    requires SchedShape(s) && SchedShape(r) && r.tasks == s.tasks
    ensures Kin(s, r)
  {
  }

  lemma SetKin(s: Sched, p: nat, u: Task)
    requires SchedShape(s) && p < PROCESS_LIMIT && KinAt(s.tasks[p], u)
    ensures Kin(s, SetTask(s, p, u))
  {
    var r := SetTask(s, p, u);
    forall q | 0 <= q < PROCESS_LIMIT ensures KinAt(s.tasks[q], r.tasks[q]) {
    }
  }

  lemma WakeKin(s: Sched, pid: nat, result: nat, detail: nat)
    requires SchedShape(s) && (pid < PROCESS_LIMIT ==> !InWait(s.tasks[pid]))
    ensures Kin(s, Wake(s, pid, result, detail))
  {
    if CanWake(s, pid) {
      SetKin(s, pid, Woken(s.tasks[pid], result, detail));
    } else {
      SameTasks(s, s);
    }
  }

  lemma DispatchKin(s: Sched, pid: nat)
    requires SchedShape(s) && pid < PROCESS_LIMIT && s.tasks[pid].state == Ready
    ensures Kin(s, Dispatch(s, pid))
  {
    var u := s.tasks[pid].(state := Running, slice := 0);
    SetKin(s, pid, u);
    SameTasks(SetTask(s, pid, u), Dispatch(s, pid));
    KinTrans(s, SetTask(s, pid, u), Dispatch(s, pid));
  }

  lemma IdleKin(s: Sched)
    requires TasksOk(s)
    ensures Kin(s, ReturnIdle(s))
  {
    var u := s.tasks[0].(state := Running);
    SetKin(s, 0, u);
    SameTasks(SetTask(s, 0, u), ReturnIdle(s));
    KinTrans(s, SetTask(s, 0, u), ReturnIdle(s));
  }

  lemma RescheduleKin(s: Sched)
    requires TasksOk(s)
    ensures Kin(s, Reschedule(s))
  {
    var t := s.tasks[s.current];
    var s1 := if t.state == Running then SetTask(s, s.current, t.(state := Ready)) else s;
    if t.state == Running { SetKin(s, s.current, t.(state := Ready)); } else { SameTasks(s, s); }
    NextReadySpec(s1.tasks, s1.current);
    var next := NextReady(s1.tasks, s1.current);
    assert TasksOk(s1);
    if next != 0 {
      DispatchKin(s1, next);
    } else if s1.tasks[s1.current].state == Ready {
      SetKin(s1, s1.current, s1.tasks[s1.current].(state := Running));
    } else {
      IdleKin(s1);
    }
    KinTrans(s, s1, Reschedule(s));
  }

  /** The running task goes to sleep for anything but a child. */
  lemma BlockKin(s: Sched, u: Task)
    requires SchedInv(s) && s.current != 0 && u.state == Blocked && u.waitingFor == None
    requires u.parent == s.tasks[s.current].parent
    ensures Kin(s, Reschedule(SetTask(s, s.current, u)))
  {
    var s1 := SetTask(s, s.current, u);
    SetKin(s, s.current, u);
    assert TasksOk(s1);
    RescheduleKin(s1);
    KinTrans(s, s1, Reschedule(s1));
  }

  lemma BlockCurrentKin(s: Sched, delay: nat, result: nat)
    requires SchedInv(s)
    ensures Kin(s, BlockCurrent(s)) && Kin(s, BlockCurrentTimeout(s, delay, result))
  {
    SameTasks(s, s);
    if s.current != 0 {
      BlockKin(s, s.tasks[s.current].(state := Blocked, waitingFor := None));
      BlockKin(s, TimedSleep(s.tasks[s.current], s.ticks, delay, result));
    }
  }

  // ----- cleanup wakes no waiting parent -----

  lemma CleanRoundKin(s: State, pid: nat, i: nat)
    requires RegistryX(s, pid) && i < CHANNEL_LIMIT
    ensures Kin(s.sched, CleanChannel(s, pid, i).sched)
  {
    SameTasks(s.sched, s.sched);
    assert WaiterOk(s, s.channels[i].waiter, pid) && SenderOk(s, s.channels[i]);
    var s1 := s.(channels := s.channels[i := Unparked(Muted(s.channels[i], pid), pid)]);
    var w, c := s1.channels[i].waiter, s1.channels[i].sender;
    var s2 := FailWaiter(s1, i);
    if w.active { WakeKin(s.sched, w.pid, FAILURE, 0); }
    if c.active {
      assert KinAt(s.sched.tasks[c.pid], s2.sched.tasks[c.pid]);
      WakeKin(s2.sched, c.pid, FAILURE, 0);
      KinTrans(s.sched, s2.sched, FailSender(s2, i).sched);
    }
  }

  lemma CleanupToKin(s: State, s0: State, pid: nat, n: nat)
    requires RegistryInv(s) && TasksOk(s.sched) && n <= CHANNEL_LIMIT
    requires s0 == s.(input := CancelInputWait(s.input, pid))
    ensures Kin(s.sched, CleanupTo(s0, pid, n).sched)
  {
    if n == 0 {
      SameTasks(s.sched, s0.sched);
    } else {
      CleanupToKin(s, s0, pid, n - 1);
      CleanupToInv(s, s0, pid, n - 1);
      var r := CleanupTo(s0, pid, n - 1);
      CleanRoundKin(r, pid, n - 1);
      KinTrans(s.sched, r.sched, CleanupTo(s0, pid, n).sched);
    }
  }

  lemma CleanupKin(s: State, pid: nat)
    requires RegistryInv(s) && TasksOk(s.sched)
    ensures Kin(s.sched, Cleanup(s, pid).sched)
  {
    CleanupToKin(s, s.(input := CancelInputWait(s.input, pid)), pid, CHANNEL_LIMIT);
  }

  // ----- the quiet steps -----

  lemma TimeoutKin(s: State, pid: nat)
    requires TasksOk(s.sched) && Shape(s) && pid < PROCESS_LIMIT
    ensures Kin(s.sched, TimeoutOne(s, pid).sched)
  {
    var t := s.sched.tasks[pid];
    SameTasks(s.sched, s.sched);
    if t.timedWait && t.state == Blocked { SetKin(s.sched, pid, Woken(t, t.timeoutResult, 0)); }
    hide Kin, RingOk;
  }

  lemma TimeoutsKin(s: State, n: nat)
    requires Inv(s) && 1 <= n <= PROCESS_LIMIT
    ensures Kin(s.sched, TimeoutsTo(s, n).sched)
  {
    InvShape(s);
    TimeoutsUnroll(s, n);
    SameTasks(s.sched, s.sched);
    if n > 1 {
      TimeoutsKin(s, n - 1);
      TimeoutsInv(s, n - 1);
      TimeoutKin(TimeoutsTo(s, n - 1), n - 1);
      KinTrans(s.sched, TimeoutsTo(s, n - 1).sched, TimeoutsTo(s, n).sched);
    }
    hide RegistryX, Kin, TimeoutOne, TimeoutsTo;
  }

  lemma TickKin(s: State)
    requires Inv(s)
    ensures Kin(s.sched, OnTick(s).sched)
  {
    TickStart(s);
    var s0 := s.(sched := s.sched.(ticks := (s.sched.ticks + 1) % U64));
    SameTasks(s.sched, s0.sched);
    TimeoutsKin(s0, PROCESS_LIMIT);
    TimeoutsInv(s0, PROCESS_LIMIT);
    var s1 := TimeoutsTo(s0, PROCESS_LIMIT);
    hide TimeoutsTo, RegistryX;
    ChargeKin(s1.sched);
    KinTrans(s.sched, s0.sched, s1.sched);
    KinTrans(s.sched, s1.sched, ChargeTick(s1.sched));
  }

  lemma ChargeKin(s: Sched)
    requires SchedInv(s)
    ensures Kin(s, ChargeTick(s))
  {
    SameTasks(s, s);
    if s.usersRunning && s.current != 0 {
      var t := s.tasks[s.current];
      var s1 := SetTask(s, s.current, t.(slice := t.slice + 1));
      SetKin(s, s.current, t.(slice := t.slice + 1));
      RescheduleKin(s1);
      KinTrans(s, s1, Reschedule(s1));
    }
  }

  lemma SendKin(s: State, chan: Option<nat>, data: seq<bv8>)
    requires Inv(s) && s.sched.current != 0
    ensures Kin(s.sched, SysSend(s, chan, data).state.sched)
  {
    SameTasks(s.sched, s.sched);
    BlockCurrentKin(s.sched, 0, 0);
    if Resolves(s, chan) && 0 < |data| <= MESSAGE_MAX {
      var w := s.channels[chan.value].waiter;
      assert WaiterOk(s, w, 0);
      if w.active {
        WakeKin(s.sched, w.pid, if w.multiplex then 1 else |data|, if w.multiplex then |data| else s.sched.current);
      }
    }
    hide Kin, BlockCurrent, RegistryX, Wake;
  }

  lemma ReceiveKin(s: State, chan: Option<nat>, capacity: nat)
    requires Inv(s)
    ensures Kin(s.sched, Receive(s, chan, capacity).state.sched)
  {
    SameTasks(s.sched, s.sched);
    if Resolves(s, chan) {
      var c := s.channels[chan.value];
      assert SenderOk(s, c);
      if c.sender.active { WakeKin(s.sched, c.sender.pid, |c.sender.data|, 0); }
    }
    hide Kin, RegistryX, Wake, Enqueue;
  }

  lemma RecvKin(s: State, chan: Option<nat>, capacity: nat, poll: bool)
    requires Inv(s)
    ensures Kin(s.sched, SysReceive(s, chan, capacity, poll).state.sched)
  {
    SameTasks(s.sched, s.sched);
    ReceiveKin(s, chan, capacity);
    BlockCurrentKin(s.sched, 0, 0);
    InvShape(s);
    hide Kin, Inv, Receive, BlockCurrent;
  }

  lemma SelectKin(s: State, chan: Option<nat>, delay: nat)
    requires Inv(s)
    ensures Kin(s.sched, SysSelect(s, chan, delay).state.sched)
  {
    SameTasks(s.sched, s.sched);
    ReceiveKin(s, chan, MESSAGE_MAX);
    BlockCurrentKin(s.sched, delay, 3);
    InvShape(s);
    hide Kin, Inv, Receive, BlockCurrent, BlockCurrentTimeout, CancelChannelWait;
  }

  lemma PublishKin(s: State, e: Event)
    requires Inv(s)
    ensures Kin(s.sched, Publish(s, e).sched)
  {
    SameTasks(s.sched, s.sched);
    if s.input.waiter.Some? { WakeKin(s.sched, s.input.waiter.value, 2, EVENT_BYTES); }
    InvShape(s);
    hide Kin, Inv, Wake, CancelChannelWait, PushEvent;
  }

  lemma StartKin(s: Sched)
    requires SchedInv(s)
    ensures Kin(s, StartUsers(s))
  {
    SameTasks(s, s);
    NextReadySpec(s.tasks, 0);
    var first := NextReady(s.tasks, 0);
    if !s.usersRunning && first != 0 {
      var s1 := SetTask(s, 0, s.tasks[0].(state := Ready));
      SetKin(s, 0, s.tasks[0].(state := Ready));
      var s2 := s1.(usersRunning := true);
      SameTasks(s1, s2);
      DispatchKin(s2, first);
      KinTrans(s, s1, s2);
      KinTrans(s, s2, StartUsers(s));
    }
  }

  /** The entries in which nobody begins to wait, ends or is created. */
  predicate Quiets(step: Step) {
    !step.Exit? && !step.TerminateCall? && !step.Kill? && !step.Wait? && !step.ReapStep? && !step.Create?
  }

  lemma QuietKin(s: State, step: Step)
    requires Inv(s) && Quiets(step)
    ensures Kin(s.sched, Next(s, step).state.sched)
  {
    SameTasks(s.sched, s.sched);
    if !(UserCall(step) && s.sched.current == 0) {
      match step
      case Send(chan, data) => SendKin(s, chan, data);
      case Recv(chan, capacity, poll) => RecvKin(s, chan, capacity, poll);
      case Select(chan, delay) => SelectKin(s, chan, delay);
      case Yield => RescheduleKin(s.sched);
      case OpenChannel(name, granted) =>
      case Tick => TickKin(s);
      case Event(e) => PublishKin(s, e);
      case Start => StartKin(s.sched);
      case Compute(fpu) => SameTasks(s.sched, s.sched.(cpu := fpu));
    }
  }

  // ----- births, ends and waits -----

  /** What the end of `pid` does to the families: its waiting parent is woken with its number and
      exit code and its slot is free; every other waiting parent stays. */
  ghost predicate EndedWell(s: Sched, r: Sched, pid: nat, code: nat) {
    && ParentsOk(s) && ParentsOk(r) && pid < PROCESS_LIMIT && Gone(r.tasks[pid])
    && (forall p | 0 <= p < PROCESS_LIMIT && p != pid && InWait(s.tasks[p]) ::
          if s.tasks[p].waitingFor == Some(pid) then r.tasks[p] == Reaped(s.tasks[p], pid, code) && r.tasks[pid] == CLEARED
          else r.tasks[p] == s.tasks[p])
  }

  /** A parent brought back from wait with its child's number and exit code. */
  function Reaped(t: Task, child: nat, code: nat): Task {
    t.(result := child, detail := code, waitingFor := None, state := Ready)
  }

  lemma ReleaseKin(s: State, child: nat)
    requires RegistryInv(s) && TasksOk(s.sched) && 0 < child < PROCESS_LIMIT && s.sched.tasks[child].state == Exited
    ensures var r := ReleaseSlot(s, child).sched;
            && SchedShape(r) && r.tasks[child] == CLEARED
            && (forall p | 0 <= p < PROCESS_LIMIT && p != child :: KinAt(s.sched.tasks[p], r.tasks[p]))
            && (forall p | 0 <= p < PROCESS_LIMIT && p != child && s.sched.tasks[p].state != Blocked ::
                  r.tasks[p] == s.sched.tasks[p])
  {
    CleanupKin(s, child);
    CleanupInv(s, child);
    var s1 := Cleanup(s, child);
    forall p | 0 <= p < PROCESS_LIMIT ensures KinAt(s.sched.tasks[p], s1.sched.tasks[p]) {
    }
    hide RegistryX, Cleanup;
  }

  /** Dying without a waiting parent leaves a zombie; nobody else can be waiting for it. */
  lemma UnawaitedEnd(s: Sched, pid: nat, code: nat)
    requires ParentsOk(s) && 0 < pid < PROCESS_LIMIT && !Gone(s.tasks[pid]) && !ParentWaits(Died(s, pid, code), pid)
    ensures EndedWell(s, Died(s, pid, code), pid, code)
  {
    var r := Died(s, pid, code);
    forall p | 0 <= p < PROCESS_LIMIT ensures ChildOk(r, p) && (p != pid && InWait(s.tasks[p]) ==> s.tasks[p].waitingFor != Some(pid)) {
      assert ChildOk(s, p);
    }
  }

  lemma AwaitedParent(s: Sched, pid: nat, code: nat) returns (q: nat)
    requires ParentsOk(s) && 0 < pid < PROCESS_LIMIT && !Gone(s.tasks[pid]) && ParentWaits(Died(s, pid, code), pid)
    ensures q == s.tasks[pid].parent && 0 < q < PROCESS_LIMIT && q != pid
    ensures InWait(s.tasks[q]) && s.tasks[q].waitingFor == Some(pid)
    ensures forall p | 0 <= p < PROCESS_LIMIT && p != q && InWait(s.tasks[p]) :: s.tasks[p].waitingFor != Some(pid)
  {
    q := s.tasks[pid].parent;
    assert ChildOk(s, q);
    forall p | 0 <= p < PROCESS_LIMIT && p != q && InWait(s.tasks[p]) ensures s.tasks[p].waitingFor != Some(pid) {
      assert ChildOk(s, p);
    }
  }

  /** Three schedulers: before, with the child dead and its parent woken, with the slot released. */
  lemma FamiliesAfter(s: Sched, r: Sched, pid: nat, q: nat, code: nat)
    requires ParentsOk(s) && SchedShape(r) && 0 < pid < PROCESS_LIMIT && 0 < q < PROCESS_LIMIT && q != pid
    requires InWait(s.tasks[q]) && s.tasks[q].waitingFor == Some(pid)
    requires forall p | 0 <= p < PROCESS_LIMIT && p != q && InWait(s.tasks[p]) :: s.tasks[p].waitingFor != Some(pid)
    requires r.tasks[pid] == CLEARED && r.tasks[q] == Reaped(s.tasks[q], pid, code)
    requires forall p | 0 <= p < PROCESS_LIMIT && p != pid && p != q :: KinAt(s.tasks[p], r.tasks[p])
    ensures EndedWell(s, r, pid, code)
  {
    forall p | 0 <= p < PROCESS_LIMIT ensures ChildOk(r, p) {
      if p != pid && p != q && InWait(r.tasks[p]) {
        assert KinAt(s.tasks[p], r.tasks[p]) && ChildOk(s, p);
        var c := r.tasks[p].waitingFor.value;
        if c != q { assert KinAt(s.tasks[c], r.tasks[c]); }
      }
    }
  }

  lemma EndFate(s: State, pid: nat, code: nat)
    requires RegistryInv(s) && SchedInv(s.sched) && ParentsOk(s.sched)
    requires 0 < pid < PROCESS_LIMIT && !Gone(s.sched.tasks[pid])
    ensures EndedWell(s.sched, WakeParent(s.(sched := Died(s.sched, pid, code)), pid).sched, pid, code)
  {
    var s1 := s.(sched := Died(s.sched, pid, code));
    DieInv(s, pid, code);
    if ParentWaits(s1.sched, pid) {
      var q := AwaitedParent(s.sched, pid, code);
      AwakeUnregistered(s1, q);
      var t := Reaped(s.sched.tasks[q], pid, code);
      RegistryTask(s1, q, t);
      var s2 := s1.(sched := SetTask(s1.sched, q, t));
      ReleaseKin(s2, pid);
      var r := ReleaseSlot(s2, pid);
      assert WakeParent(s1, pid) == r;
      forall p | 0 <= p < PROCESS_LIMIT && p != pid && p != q ensures KinAt(s.sched.tasks[p], r.sched.tasks[p]) {
        assert s2.sched.tasks[p] == s.sched.tasks[p];
      }
      hide RegistryX, ReleaseSlot, WakeParent;
      FamiliesAfter(s.sched, r.sched, pid, q, code);
    } else {
      UnawaitedEnd(s.sched, pid, code);
    }
  }

  /** What an entry makes of a parent waiting for `c`. */
  ghost predicate WaitFate(s: Sched, r: Sched, step: Step, p: nat, c: nat)
    requires SchedShape(s) && SchedShape(r) && p < PROCESS_LIMIT
  {
    if Ends(s, step, p).Some? then Gone(r.tasks[p])
    else if Ends(s, step, c).Some? then
      && (r.tasks[p].state == Ready || r.tasks[p].state == Running) && r.tasks[p].waitingFor == None
      && r.tasks[p].result == c && r.tasks[p].detail == Ends(s, step, c).value
      && c < PROCESS_LIMIT && r.tasks[c] == CLEARED
    else r.tasks[p] == s.tasks[p]
  }

  /** The exit code with which this entry ends the live task `pid`, if it does. */
  function Ends(s: Sched, step: Step, pid: nat): Option<nat>
    requires SchedShape(s)
  {
    match step
    case Exit(code) => if s.current != 0 && pid == s.current then Some(code) else None
    case TerminateCall(target, code) => if s.current != 0 && target == pid && pid != s.current then Some(code) else None
    case Kill(target, code) => if target == pid && pid != s.current then Some(code) else None
    case _ => None
  }

  lemma Sleepers(s: Sched, p: nat)
    requires SchedInv(s) && ParentsOk(s) && p < PROCESS_LIMIT && InWait(s.tasks[p])
    ensures p != 0 && p != s.current && s.tasks[p].waitingFor.value < PROCESS_LIMIT
    ensures s.tasks[p].waitingFor.value != 0 && !Gone(s.tasks[s.tasks[p].waitingFor.value])
  {
    assert ChildOk(s, p);
  }

  /** The whole promise of one entry to parents in wait. */
  ghost predicate Promise(s: Sched, r: Sched, step: Step) {
    && ParentsOk(s) && ParentsOk(r)
    && (forall p | 0 <= p < PROCESS_LIMIT && InWait(s.tasks[p]) :: WaitFate(s, r, step, p, s.tasks[p].waitingFor.value))
  }

  /** Leaving the processor after an end. */
  lemma LeaveKin(s: Sched)
    requires MidSwitch(s) && s.tasks[s.current].state != Ready && s.tasks[s.current].state != Running
    ensures var next := NextReady(s.tasks, s.current);
            next < PROCESS_LIMIT && Kin(s, if next != 0 then Dispatch(s, next) else ReturnIdle(s))
    ensures var next := NextReady(s.tasks, s.current);
            var r := if next != 0 then Dispatch(s, next) else ReturnIdle(s);
            forall p | 0 <= p < PROCESS_LIMIT && s.tasks[p].state == Ready ::
              (r.tasks[p].state == Ready || r.tasks[p].state == Running)
              && r.tasks[p] == s.tasks[p].(state := r.tasks[p].state, slice := r.tasks[p].slice)
  {
    NextReadySpec(s.tasks, s.current);
    var next := NextReady(s.tasks, s.current);
    if next != 0 { DispatchKin(s, next); } else { IdleKin(s); }
  }

  lemma ExitPromise(s: State, code: nat)
    requires Inv(s) && ParentsOk(s.sched) && s.sched.current != 0
    ensures Promise(s.sched, SysExit(s, code).sched, Exit(code))
  {
    var pid := s.sched.current;
    CleanupKin(s, pid);
    CleanupWhole(s, pid);
    var s0 := Cleanup(s, pid);
    KinKeeps(s.sched, s0.sched);
    assert KinAt(s.sched.tasks[pid], s0.sched.tasks[pid]);
    EndFate(s0, pid, code);
    DieInv(s0, pid, code);
    var s1 := s0.(sched := Died(s0.sched, pid, code));
    WakeParentInv(s1, pid);
    var m := WakeParent(s1, pid).sched;
    LeaveKin(m);
    var r := SysExit(s, code).sched;
    assert r == if NextReady(m.tasks, m.current) != 0 then Dispatch(m, NextReady(m.tasks, m.current)) else ReturnIdle(m);
    hide RegistryX, Cleanup, WakeParent, SysExit, Dispatch, ReturnIdle, NextReady, MidSwitch;
    KinKeeps(m, r);
    ExitGlue(s.sched, s0.sched, m, r, code);
  }

  lemma ExitGlue(s: Sched, s0: Sched, m: Sched, r: Sched, code: nat)
    requires Kin(s, s0) && EndedWell(s0, m, s.current, code) && Kin(m, r) && ParentsOk(s) && ParentsOk(r)
    requires s.current != 0 && SchedInv(s)
    requires forall p | 0 <= p < PROCESS_LIMIT && m.tasks[p].state == Ready ::
               (r.tasks[p].state == Ready || r.tasks[p].state == Running)
               && r.tasks[p] == m.tasks[p].(state := r.tasks[p].state, slice := r.tasks[p].slice)
    requires forall p | 0 <= p < PROCESS_LIMIT && m.tasks[p] == CLEARED :: r.tasks[p] == CLEARED
    ensures Promise(s, r, Exit(code))
  {
    forall p | 0 <= p < PROCESS_LIMIT && InWait(s.tasks[p])
      ensures WaitFate(s, r, Exit(code), p, s.tasks[p].waitingFor.value)
    {
      Sleepers(s, p);
      assert KinAt(s.tasks[p], s0.tasks[p]) && KinAt(m.tasks[p], r.tasks[p]);
    }
  }

  lemma QuietPromise(s: Sched, r: Sched, step: Step)
    requires Kin(s, r) && ParentsOk(s) && SchedInv(s)
    requires forall p | 0 <= p < PROCESS_LIMIT && InWait(s.tasks[p]) ::
               Ends(s, step, p) == None && Ends(s, step, s.tasks[p].waitingFor.value) == None
    ensures Promise(s, r, step)
  {
    KinKeeps(s, r);
    forall p | 0 <= p < PROCESS_LIMIT && InWait(s.tasks[p])
      ensures WaitFate(s, r, step, p, s.tasks[p].waitingFor.value)
    {
      assert KinAt(s.tasks[p], r.tasks[p]);
    }
  }

  /** Ending another live task, after a cleanup that may or may not have been made. */
  lemma EndOther(s: State, s0: State, step: Step, pid: nat, code: nat)
    requires Inv(s) && Inv(s0) && ParentsOk(s.sched) && Kin(s.sched, s0.sched)
    requires s0.sched.current == s.sched.current && CanTerminate(s0.sched, pid)
    requires step == Kill(pid, code) || (step == TerminateCall(pid, code) && s.sched.current != 0)
    ensures Promise(s.sched, Terminate(s0, pid, code).sched, step)
  {
    KinKeeps(s.sched, s0.sched);
    EndFate(s0, pid, code);
    var r := Terminate(s0, pid, code).sched;
    assert EndedWell(s0.sched, r, pid, code);
    hide RegistryX, Terminate;
    forall p | 0 <= p < PROCESS_LIMIT && InWait(s.sched.tasks[p])
      ensures WaitFate(s.sched, r, step, p, s.sched.tasks[p].waitingFor.value)
    {
      Sleepers(s.sched, p);
      assert KinAt(s.sched.tasks[p], s0.sched.tasks[p]);
    }
  }

  /** When the target is gone or running, nobody ends. */
  lemma EndNobody(s: State, s0: State, step: Step, pid: nat, code: nat)
    requires Inv(s) && ParentsOk(s.sched) && Kin(s.sched, s0.sched)
    requires s0.sched.current == s.sched.current && !CanTerminate(s0.sched, pid)
    requires step == Kill(pid, code) || (step == TerminateCall(pid, code) && s.sched.current != 0)
    ensures Promise(s.sched, s0.sched, step)
  {
    forall p | 0 <= p < PROCESS_LIMIT && InWait(s.sched.tasks[p])
      ensures Ends(s.sched, step, p) == None && Ends(s.sched, step, s.sched.tasks[p].waitingFor.value) == None
    {
      Sleepers(s.sched, p);
      var c := s.sched.tasks[p].waitingFor.value;
      assert KinAt(s.sched.tasks[p], s0.sched.tasks[p]) && KinAt(s.sched.tasks[c], s0.sched.tasks[c]);
    }
    QuietPromise(s.sched, s0.sched, step);
  }

  lemma KillPromise(s: State, target: nat, code: nat)
    requires Inv(s) && ParentsOk(s.sched)
    ensures Promise(s.sched, Terminate(s, target, code).sched, Kill(target, code))
  {
    SameTasks(s.sched, s.sched);
    if CanTerminate(s.sched, target) {
      EndOther(s, s, Kill(target, code), target, code);
    } else {
      EndNobody(s, s, Kill(target, code), target, code);
    }
  }

  lemma TerminatePromise(s: State, target: nat, code: nat)
    requires Inv(s) && ParentsOk(s.sched) && s.sched.current != 0
    ensures Promise(s.sched, SysTerminate(s, target, code).sched, TerminateCall(target, code))
  {
    CleanupKin(s, target);
    CleanupWhole(s, target);
    var s0 := Cleanup(s, target);
    if CanTerminate(s0.sched, target) {
      EndOther(s, s0, TerminateCall(target, code), target, code);
    } else {
      EndNobody(s, s0, TerminateCall(target, code), target, code);
    }
  }

  /** Nobody waits for a zombie, so clearing its slot disturbs no family. */
  lemma ReapPromise(s: State, parent: nat, child: nat, step: Step)
    requires Inv(s) && ParentsOk(s.sched) && (step.Wait? || step.ReapStep?)
    ensures Promise(s.sched, Reap(s, parent, child).sched, step)
  {
    SameTasks(s.sched, s.sched);
    if CanReap(s.sched, parent, child) {
      ReleaseKin(s, child);
      var r := Reap(s, parent, child).sched;
      hide RegistryX, Reap;
      ZombieReleased(s.sched, r, child, step);
    } else {
      QuietPromise(s.sched, s.sched, step);
    }
  }

  lemma ZombieReleased(s: Sched, r: Sched, child: nat, step: Step)
    requires SchedInv(s) && ParentsOk(s) && SchedShape(r) && 0 < child < PROCESS_LIMIT
    requires s.tasks[child].state == Exited && r.tasks[child] == CLEARED && (step.Wait? || step.ReapStep?)
    requires forall p | 0 <= p < PROCESS_LIMIT && p != child :: KinAt(s.tasks[p], r.tasks[p])
    ensures Promise(s, r, step)
  {
    forall p | 0 <= p < PROCESS_LIMIT ensures ChildOk(r, p) {
      if p != child && InWait(r.tasks[p]) {
        assert KinAt(s.tasks[p], r.tasks[p]);
        Sleepers(s, p);
        assert ChildOk(s, p);
        var c := r.tasks[p].waitingFor.value;
        assert KinAt(s.tasks[c], r.tasks[c]);
      }
    }
    forall p | 0 <= p < PROCESS_LIMIT && InWait(s.tasks[p])
      ensures WaitFate(s, r, step, p, s.tasks[p].waitingFor.value)
    {
      assert KinAt(s.tasks[p], r.tasks[p]);
    }
  }

  /** Going to sleep for a living child. */
  lemma WaitPromise(s: State, child: nat)
    requires Inv(s) && ParentsOk(s.sched) && s.sched.current != 0
    ensures Promise(s.sched, OnWait(s, child).sched, Wait(child))
  {
    var pid := s.sched.current;
    SameTasks(s.sched, s.sched);
    if CanReap(s.sched, pid, child) {
      ReapPromise(s, pid, child, Wait(child));
    } else if child < PROCESS_LIMIT && s.sched.tasks[child].parent == pid && s.sched.tasks[child].state != Unused {
      assert child != 0;
      var s1 := SetTask(s.sched, pid, s.sched.tasks[pid].(state := Blocked, waitingFor := Some(child)));
      assert TasksOk(s1);
      RescheduleKin(s1);
      hide RegistryX, Reschedule;
      BeganToWait(s.sched, s1, Reschedule(s1), child);
    } else {
      QuietPromise(s.sched, s.sched, Wait(child));
    }
  }

  lemma BeganToWait(s: Sched, s1: Sched, r: Sched, child: nat)
    requires SchedInv(s) && ParentsOk(s) && s.current != 0 && 0 < child < PROCESS_LIMIT
    requires s.tasks[child].parent == s.current && !Gone(s.tasks[child])
    requires s1 == SetTask(s, s.current, s.tasks[s.current].(state := Blocked, waitingFor := Some(child)))
    requires Kin(s1, r)
    ensures Promise(s, r, Wait(child))
  {
    forall p | 0 <= p < PROCESS_LIMIT ensures ChildOk(s1, p) {
      assert ChildOk(s, p);
    }
    KinKeeps(s1, r);
    forall p | 0 <= p < PROCESS_LIMIT && InWait(s.tasks[p])
      ensures WaitFate(s, r, Wait(child), p, s.tasks[p].waitingFor.value)
    {
      Sleepers(s, p);
      assert KinAt(s1.tasks[p], r.tasks[p]);
    }
  }

  /** A new task appears in a slot nobody waits for. */
  lemma CreatePromise(s: Sched, parent: nat)
    requires SchedInv(s) && ParentsOk(s)
    ensures Promise(s, CreateUser(s, parent), Create(parent))
  {
    FirstUnusedSpec(s.tasks, 1);
    var pid, r := FirstUnused(s.tasks, 1), CreateUser(s, parent);
    forall p | 0 <= p < PROCESS_LIMIT ensures ChildOk(r, p) && (InWait(s.tasks[p]) ==> r.tasks[p] == s.tasks[p]) {
      assert ChildOk(s, p);
    }
  }

  /** One entry: waiting parents wait only for living children of their own; such a parent is woken
      by its child's end with the child's number and exit code, dies if it is ended itself, and is
      otherwise left exactly as it was. */
  lemma NextPromise(s: State, step: Step)
    requires Inv(s) && ParentsOk(s.sched)
    ensures Promise(s.sched, Next(s, step).state.sched, step)
  {
    if UserCall(step) && s.sched.current == 0 {
      SameTasks(s.sched, s.sched);
      QuietPromise(s.sched, s.sched, step);
    } else if Quiets(step) {
      QuietKin(s, step);
      QuietPromise(s.sched, Next(s, step).state.sched, step);
    } else {
      match step
      case Exit(code) => ExitPromise(s, code);
      case TerminateCall(target, code) => TerminatePromise(s, target, code);
      case Kill(target, code) => KillPromise(s, target, code);
      case Wait(child) => WaitPromise(s, child);
      case ReapStep(parent, child) => ReapPromise(s, parent, child, step);
      case Create(parent) => CreatePromise(s.sched, parent);
    }
  }

  /** In every reachable state a waiting parent's child is alive: no exit was missed. */
  lemma {:induction false} RunParents(s: State, steps: seq<Step>)
    requires Inv(s) && ParentsOk(s.sched)
    ensures ParentsOk(Run(s, steps).sched)
    decreases |steps|
  {
    if |steps| > 0 {
      RunParents(s, steps[..|steps| - 1]);
      RunInv(s, steps[..|steps| - 1]);
      NextPromise(Run(s, steps[..|steps| - 1]), steps[|steps| - 1]);
    }
  }

  /** From boot on no exit is missed, and wait(0) is refused in every reachable state. */
  lemma FromBoot(s: State, steps: seq<Step>)
    requires Initial(s)
    ensures ParentsOk(Run(s, steps).sched)
    ensures Next(Run(s, steps), Wait(0)).state == Run(s, steps)
  {
    InitialOk(s, s.sched.fpu[0 := s.sched.cpu]);
    RunParents(s, steps);
    RunInv(s, steps);
    WaitZeroRefused(Run(s, steps));
  }
}
