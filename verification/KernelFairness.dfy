/** What a task can rely on from the scheduler: it is dispatched after a bounded number of
    others, the processor is never idle while it is ready, and it finds its own
    floating-point registers when it runs again. */
module KernelFairness {
  import opened KernelState
  import opened KernelInvariants
  import opened KernelSteps
  import opened Options

  predicate Live(t: Task) { t.state == Ready || t.state == Blocked }

  /** The same task still holds the processor; other tasks may have been woken, put to rest or
      cleared, but none has come to life. */
  ghost predicate Calm(s: Sched, m: Sched) {
    && SchedShape(s) && SchedShape(m)
    && m == s.(tasks := m.tasks, ticks := m.ticks)
    && (forall p | 0 < p < PROCESS_LIMIT && p != s.current && Live(m.tasks[p]) :: Live(s.tasks[p]))
  }

  /** How an entry ends: back to the caller, or by choosing another task. */
  datatype Ending = Stay | GiveUp | Leave

  ghost function Finish(m: Sched, how: Ending): Sched
    requires SchedShape(m)
  {
    match how
    case Stay => m
    case GiveUp => Reschedule(m)
    case Leave =>
      var next := NextReady(m.tasks, m.current);
      if 0 < next < PROCESS_LIMIT then Dispatch(m, next) else ReturnIdle(m)
  }

  function Charge(s: Sched, step: Step): nat { if step.Tick? && s.current != 0 then 1 else 0 }

  ghost predicate Decomposed(s: Sched, step: Step, r: Sched, m: Sched, how: Ending) {
    && Calm(s, m) && r == Finish(m, how)
    && (how == Stay ==> SchedInv(m) && m.tasks[m.current].slice == s.tasks[s.current].slice + Charge(s, step))
    && (how != Stay ==> MidSwitch(m) && m.tasks[m.current].state != Ready)
    && (how == Leave ==> m.tasks[m.current].state != Running)
  }

  lemma OnlyWakesCalm(s: Sched, m: Sched)
    requires OnlyWakes(s, m)
    ensures Calm(s, m)
    ensures s.tasks[s.current].state != Blocked ==> m.tasks[s.current] == s.tasks[s.current]
  {
  }

  lemma CalmTrans(a: Sched, b: Sched, c: Sched)
    requires Calm(a, b) && Calm(b, c)
    ensures Calm(a, c)
  {
  }

  /** The running task is not disturbed. */
  ghost predicate RunnerKept(s: Sched, m: Sched)
    requires SchedShape(s) && SchedShape(m)
  {
    s.tasks[s.current].state == Running ==> m.tasks[s.current] == s.tasks[s.current]
  }

  lemma ReleaseCalm(s: State, child: nat)
    requires RegistryInv(s) && TasksOk(s.sched) && 0 < child < PROCESS_LIMIT && s.sched.tasks[child].state == Exited
    ensures var m := ReleaseSlot(s, child).sched; Calm(s.sched, m) && RunnerKept(s.sched, m)
  {
    CleanupInv(s, child);
    OnlyWakesCalm(s.sched, Cleanup(s, child).sched);
  }

  lemma WakeParentCalm(s: State, child: nat)
    requires RegistryInv(s) && TasksOk(s.sched) && 0 < child < PROCESS_LIMIT && s.sched.tasks[child].state == Exited
    ensures var m := WakeParent(s, child).sched; Calm(s.sched, m) && RunnerKept(s.sched, m)
  {
    if ParentWaits(s.sched, child) {
      var p := s.sched.tasks[child].parent;
      var t := s.sched.tasks[p].(result := child, detail := s.sched.tasks[child].exitCode,
                                 waitingFor := None, state := Ready);
      AwakeUnregistered(s, p);
      RegistryTask(s, p, t);
      ReleaseCalm(s.(sched := SetTask(s.sched, p, t)), child);
    }
  }

  lemma TerminateCalm(s: State, pid: nat, code: nat)
    requires Inv(s)
    ensures Decomposed(s.sched, Kill(pid, code), Terminate(s, pid, code).sched, Terminate(s, pid, code).sched, Stay)
  {
    TerminateInv(s, pid, code);
    if CanTerminate(s.sched, pid) {
      DieInv(s, pid, code);
      var s1 := s.(sched := Died(s.sched, pid, code));
      WakeParentCalm(s1, pid);
    }
  }

  lemma ExitCalm(s: State, code: nat)
    requires Inv(s) && s.sched.current != 0
    ensures var pid := s.sched.current;
            var s1 := s.(sched := Died(s.sched, pid, code));
            var m := WakeParent(s1, pid).sched;
            && Calm(s.sched, m) && MidSwitch(m)
            && m.tasks[pid].state != Running && m.tasks[pid].state != Ready
            && OnExit(s, code).sched == Finish(m, Leave)
  {
    var pid := s.sched.current;
    DieInv(s, pid, code);
    var s1 := s.(sched := Died(s.sched, pid, code));
    WakeParentInv(s1, pid);
    WakeParentCalm(s1, pid);
    CalmTrans(s.sched, s1.sched, WakeParent(s1, pid).sched);
    NextReadySpec(WakeParent(s1, pid).sched.tasks, pid);
  }

  lemma ExitDecompose(s: State, code: nat) returns (m: Sched)
    requires Inv(s) && s.sched.current != 0
    ensures Decomposed(s.sched, Exit(code), SysExit(s, code).sched, m, Leave)
  {
    var pid := s.sched.current;
    CleanupWhole(s, pid);
    CleanupInv(s, pid);
    var s0 := Cleanup(s, pid);
    OnlyWakesCalm(s.sched, s0.sched);
    ExitCalm(s0, code);
    var s1 := s0.(sched := Died(s0.sched, pid, code));
    m := WakeParent(s1, pid).sched;
    CalmTrans(s.sched, s0.sched, m);
  }

  lemma ChargeDecompose(s: State) returns (m: Sched, how: Ending)
    requires Inv(s)
    ensures Decomposed(s.sched, Tick, ChargeTick(s.sched), m, how)
  {
    InvShape(s);
    hide RegistryX, RingOk, InputOk;
    if s.sched.current == 0 {
      m, how := s.sched, Stay;
    } else {
      var t := s.sched.tasks[s.sched.current];
      ChargeSlice(s);
      m := SetTask(s.sched, s.sched.current, t.(slice := t.slice + 1));
      how := if t.slice + 1 < QUANTUM_TICKS then Stay else GiveUp;
    }
  }

  lemma TickDecompose(s: State) returns (m: Sched, how: Ending)
    requires Inv(s)
    ensures Decomposed(s.sched, Tick, OnTick(s).sched, m, how)
  {
    var s0 := s.(sched := s.sched.(ticks := (s.sched.ticks + 1) % U64));
    SwitchKeepsRegistry(s, s0.sched);
    TimeoutsInv(s0, PROCESS_LIMIT);
    var s1 := TimeoutsTo(s0, PROCESS_LIMIT);
    OnlyWakesCalm(s0.sched, s1.sched);
    m, how := ChargeDecompose(s1);
    TickGlue(s.sched, s1.sched, ChargeTick(s1.sched), m, how);
  }

  lemma TickGlue(s: Sched, s1: Sched, r: Sched, m: Sched, how: Ending)
    requires Calm(s, s1) && s1.tasks[s.current] == s.tasks[s.current] && Decomposed(s1, Tick, r, m, how)
    ensures Decomposed(s, Tick, r, m, how)
  {
    CalmTrans(s, s1, m);
  }

  lemma BlockDecompose(s: Sched, t: Task, step: Step)
    requires SchedInv(s) && s.current != 0 && t.state == Blocked && (t.timedWait ==> t.waitingFor == None)
    ensures Decomposed(s, step, Reschedule(SetTask(s, s.current, t)), SetTask(s, s.current, t), GiveUp)
  {
  }

  lemma SendDecompose(s: State, step: Step) returns (m: Sched, how: Ending)
    requires Inv(s) && s.sched.current != 0 && step.Send?
    ensures Decomposed(s.sched, step, Next(s, step).state.sched, m, how)
  {
    SendInv(s, step.chan, step.data);
    var r := SendImpl(s, s.sched.current, step.chan, step.data, true);
    if r.code == 2 {
      var t := s.sched.tasks[s.sched.current].(state := Blocked, waitingFor := None);
      m, how := SetTask(s.sched, s.sched.current, t), GiveUp;
      BlockDecompose(s.sched, t, step);
    } else {
      m, how := r.state.sched, Stay;
    }
  }

  lemma RecvDecompose(s: State, step: Step) returns (m: Sched, how: Ending)
    requires Inv(s) && s.sched.current != 0 && step.Recv?
    ensures Decomposed(s.sched, step, Next(s, step).state.sched, m, how)
  {
    NextInv(s, step);
    if Next(s, step).delivered == None && CanWait(s, step.chan, step.capacity) && !step.poll {
      var t := s.sched.tasks[s.sched.current].(state := Blocked, waitingFor := None);
      m, how := SetTask(s.sched, s.sched.current, t), GiveUp;
      BlockDecompose(s.sched, t, step);
    } else {
      m, how := Next(s, step).state.sched, Stay;
    }
  }

  lemma SelectDecompose(s: State, step: Step) returns (m: Sched, how: Ending)
    requires Inv(s) && s.sched.current != 0 && step.Select?
    ensures Decomposed(s.sched, step, Next(s, step).state.sched, m, how)
  {
    NextInv(s, step);
    if Next(s, step).delivered == None && s.input.read == s.input.write
       && CanWait(s, step.chan, MESSAGE_MAX) && s.input.waiter == None {
      var t0 := s.sched.tasks[s.sched.current];
      var t := if step.delay != 0 then TimedSleep(t0, s.sched.ticks, step.delay, 3)
               else t0.(state := Blocked, waitingFor := None);
      m, how := SetTask(s.sched, s.sched.current, t), GiveUp;
      BlockDecompose(s.sched, t, step);
    } else {
      m, how := Next(s, step).state.sched, Stay;
    }
  }

  lemma WaitDecompose(s: State, step: Step) returns (m: Sched, how: Ending)
    requires Inv(s) && s.sched.current != 0 && step.Wait?
    ensures Decomposed(s.sched, step, Next(s, step).state.sched, m, how)
  {
    NextInv(s, step);
    var pid := s.sched.current;
    if CanReap(s.sched, pid, step.child) {
      ReleaseCalm(s, step.child);
      m, how := Next(s, step).state.sched, Stay;
    } else if step.child < PROCESS_LIMIT && s.sched.tasks[step.child].parent == pid
              && s.sched.tasks[step.child].state != Unused {
      var t := s.sched.tasks[pid].(state := Blocked, waitingFor := Some(step.child));
      m, how := SetTask(s.sched, pid, t), GiveUp;
      BlockDecompose(s.sched, t, step);
    } else {
      m, how := s.sched, Stay;
    }
  }

  /** Every entry except creating, starting and computing first settles the other tasks and then
      either returns or passes the processor on. */
  lemma Decompose(s: State, step: Step) returns (m: Sched, how: Ending)
    requires Inv(s) && !step.Create? && !step.Start? && !step.Compute?
    ensures Decomposed(s.sched, step, Next(s, step).state.sched, m, how)
  {
    NextInv(s, step);
    m, how := Next(s, step).state.sched, Stay;
    if !(UserCall(step) && s.sched.current == 0) {
      match step
      case Send(_, _) => m, how := SendDecompose(s, step);
      case Recv(_, _, _) => m, how := RecvDecompose(s, step);
      case Select(_, _) => m, how := SelectDecompose(s, step);
      case Yield => m, how := s.sched, GiveUp;
      case Exit(code) => m := ExitDecompose(s, code); how := Leave;
      case TerminateCall(target, code) =>
        CleanupWhole(s, target);
        CleanupInv(s, target);
        OnlyWakesCalm(s.sched, Cleanup(s, target).sched);
        TerminateCalm(Cleanup(s, target), target, code);
      case Wait(_) => m, how := WaitDecompose(s, step);
      case OpenChannel(_, _) =>
      case Tick => m, how := TickDecompose(s);
      case Event(_) =>
      case Kill(target, code) => TerminateCalm(s, target, code);
      case ReapStep(parent, child) => if CanReap(s.sched, parent, child) { ReleaseCalm(s, child); }
    }
  }

  // ----- never idle while a task is ready -----

  lemma FinishIdle(m: Sched, how: Ending)
    requires MidSwitch(m) && m.tasks[m.current].state != Ready && how != Stay
    requires how == Leave ==> m.tasks[m.current].state != Running
    ensures Finish(m, how).current == 0 ==>
              forall p | 0 < p < PROCESS_LIMIT :: Finish(m, how).tasks[p].state != Ready
  {
    var t := m.tasks[m.current];
    var m1 := if how == GiveUp && t.state == Running then SetTask(m, m.current, t.(state := Ready)) else m;
    NextReadySpec(m1.tasks, m1.current);
  }

  /** The processor goes idle only when no task is ready. */
  lemma IdleOnlyWhenNoneReady(s: State, step: Step)
    requires Inv(s) && s.sched.current != 0 && Next(s, step).state.sched.current == 0
    ensures forall p | 0 < p < PROCESS_LIMIT :: Next(s, step).state.sched.tasks[p].state != Ready
  {
    var m, how := Decompose(s, step);
    if how != Stay { FinishIdle(m, how); }
  }

  // ----- bounded bypass -----

  /** Timer ticks that can still pass before `p` must be dispatched. */
  function Patience(s: Sched, p: nat): int
    requires SchedShape(s) && 0 < p < PROCESS_LIMIT
  {
    QUANTUM_TICKS * Distance(s.current, p) - s.tasks[s.current].slice
  }

  lemma Closer(after: nat, next: nat, p: nat)
    requires after < PROCESS_LIMIT && 0 < next < PROCESS_LIMIT && 0 < p < PROCESS_LIMIT && p != next
    requires Distance(after, next) <= Distance(after, p)
    ensures Distance(next, p) < Distance(after, p)
  {
  }

  lemma FinishCloser(m: Sched, how: Ending, p: nat)
    requires MidSwitch(m) && m.tasks[m.current].state != Ready && how != Stay
    requires how == Leave ==> m.tasks[m.current].state != Running
    requires 0 < p < PROCESS_LIMIT && m.tasks[p].state == Ready && Finish(m, how).tasks[p].state == Ready
    ensures var r := Finish(m, how);
            && r.usersRunning && r.dispatches == m.dispatches + 1
            && 0 < r.current < PROCESS_LIMIT && r.tasks[r.current].slice == 0
            && Distance(r.current, p) < Distance(m.current, p)
  {
    var t := m.tasks[m.current];
    var m1 := if how == GiveUp && t.state == Running then SetTask(m, m.current, t.(state := Ready)) else m;
    NextReadySpec(m1.tasks, m1.current);
    Closer(m1.current, NextReady(m1.tasks, m1.current), p);
  }

  /** While `p` stays ready every dispatch brings its turn nearer, and every tick uses up patience. */
  lemma BypassStep(s: State, step: Step, p: nat)
    requires Inv(s) && s.sched.usersRunning && 0 < p < PROCESS_LIMIT
    requires s.sched.tasks[p].state == Ready && Next(s, step).state.sched.tasks[p].state == Ready
    ensures var r := Next(s, step).state.sched;
            && r.usersRunning
            && r.dispatches - s.sched.dispatches <= Distance(s.sched.current, p) - Distance(r.current, p)
            && Patience(r, p) + (if step.Tick? then 1 else 0) <= Patience(s.sched, p)
  {
    if step.Create? {
      FirstUnusedSpec(s.sched.tasks, 1);
    } else if !step.Start? && !step.Compute? {
      var m, how := Decompose(s, step);
      if how != Stay { FinishCloser(m, how, p); }
    }
  }

  /** `p` is ready before every step and after the last. */
  ghost predicate AlwaysReady(s: State, steps: seq<Step>, p: nat)
    requires Shape(s) && p < PROCESS_LIMIT
    decreases |steps|
  {
    Run(s, steps).sched.tasks[p].state == Ready && (|steps| > 0 ==> AlwaysReady(s, steps[..|steps| - 1], p))
  }

  function Ticks(steps: seq<Step>): nat {
    if |steps| == 0 then 0
    else Ticks(steps[..|steps| - 1]) + if steps[|steps| - 1].Tick? then 1 else 0
  }

  lemma {:induction false} BypassRun(s: State, steps: seq<Step>, p: nat)
    requires Inv(s) && s.sched.usersRunning && 0 < p < PROCESS_LIMIT && AlwaysReady(s, steps, p)
    ensures var r := Run(s, steps).sched;
            && r.usersRunning
            && r.dispatches - s.sched.dispatches <= Distance(s.sched.current, p) - Distance(r.current, p)
            && Patience(r, p) + Ticks(steps) <= Patience(s.sched, p)
    decreases |steps|
  {
    if |steps| > 0 {
      var k := |steps| - 1;
      BypassRun(s, steps[..k], p);
      RunInv(s, steps[..k]);
      BypassStepAt(Run(s, steps[..k]), steps[k], p);
    } else {
      assert steps == [];
    }
  }

  lemma BypassStepAt(s: State, step: Step, p: nat)
    requires Inv(s) && s.sched.usersRunning && 0 < p < PROCESS_LIMIT
    requires s.sched.tasks[p].state == Ready && Next(s, step).state.sched.tasks[p].state == Ready
    ensures var r := Next(s, step).state.sched;
            && r.usersRunning
            && r.dispatches - s.sched.dispatches <= Distance(s.sched.current, p) - Distance(r.current, p)
            && Patience(r, p) + (if step.Tick? then 1 else 0) <= Patience(s.sched, p)
  {
    BypassStep(s, step, p);
  }

  /** A task that stays ready sees fewer than N-2 other dispatches and fewer than 4(N-2) ticks. */
  lemma BoundedBypass(s: State, steps: seq<Step>, p: nat)
    requires Inv(s) && s.sched.usersRunning && 0 < p < PROCESS_LIMIT && AlwaysReady(s, steps, p)
    ensures Run(s, steps).sched.dispatches - s.sched.dispatches < PROCESS_LIMIT - 2
    ensures Ticks(steps) < QUANTUM_TICKS * (PROCESS_LIMIT - 2)
  {
    BypassRun(s, steps, p);
    ReadyAtStart(s, steps, p);
    RunInv(s, steps);
  }

  lemma {:induction false} ReadyAtStart(s: State, steps: seq<Step>, p: nat)
    requires Shape(s) && p < PROCESS_LIMIT && AlwaysReady(s, steps, p)
    ensures s.sched.tasks[p].state == Ready
    decreases |steps|
  {
    if |steps| > 0 { ReadyAtStart(s, steps[..|steps| - 1], p); } else { assert steps == []; }
  }

  // ----- floating-point registers -----

  /** `regs[p]` are the registers task `p` would have if it never shared the processor. */
  ghost predicate OwnRegisters(s: Sched, regs: seq<Fpu>) {
    && SchedShape(s) && |regs| == PROCESS_LIMIT
    && s.cpu == regs[s.current]
    && (forall p | 0 <= p < PROCESS_LIMIT && p != s.current && (p == 0 || Live(s.tasks[p])) :: s.fpu[p] == regs[p])
  }

  /** Only computing changes a task's own registers; a new task starts from the template. */
  ghost function NextRegisters(s: State, step: Step, regs: seq<Fpu>): seq<Fpu>
    requires Shape(s) && |regs| == PROCESS_LIMIT
  {
    match step
    case Compute(v) => regs[s.sched.current := v]
    case Create(parent) =>
      var pid := FirstUnused(s.sched.tasks, 1);
      if parent < PROCESS_LIMIT && 0 < pid < PROCESS_LIMIT then regs[pid := s.sched.template] else regs
    case _ => regs
  }

  lemma DispatchRegisters(m: Sched, pid: nat, regs: seq<Fpu>)
    requires OwnRegisters(m, regs) && pid < PROCESS_LIMIT && (pid == 0 || Live(m.tasks[pid]))
    ensures OwnRegisters(Dispatch(m, pid), regs) && OwnRegisters(ReturnIdle(m), regs)
  {
  }

  lemma FinishRegisters(m: Sched, how: Ending, regs: seq<Fpu>)
    requires OwnRegisters(m, regs)
    ensures OwnRegisters(Finish(m, how), regs)
  {
    var t := m.tasks[m.current];
    var m1 := if how == GiveUp && t.state == Running then SetTask(m, m.current, t.(state := Ready)) else m;
    assert OwnRegisters(m1, regs);
    NextReadySpec(m1.tasks, m1.current);
    DispatchRegisters(m1, NextReady(m1.tasks, m1.current), regs);
  }

  lemma RegistersStep(s: State, step: Step, regs: seq<Fpu>)
    requires Inv(s) && OwnRegisters(s.sched, regs)
    ensures OwnRegisters(Next(s, step).state.sched, NextRegisters(s, step, regs))
  {
    if step.Create? {
      FirstUnusedSpec(s.sched.tasks, 1);
    } else if step.Start? {
      var first := NextReady(s.sched.tasks, 0);
      NextReadySpec(s.sched.tasks, 0);
      if !s.sched.usersRunning && first != 0 {
        var m := SetTask(s.sched, 0, s.sched.tasks[0].(state := Ready)).(usersRunning := true);
        DispatchRegisters(m, first, regs);
      }
    } else if !step.Compute? {
      var m, how := Decompose(s, step);
      FinishRegisters(m, how, regs);
    }
  }

  ghost function RunRegisters(s: State, steps: seq<Step>, regs: seq<Fpu>): (r: seq<Fpu>)
    requires Shape(s) && |regs| == PROCESS_LIMIT
    ensures |r| == PROCESS_LIMIT
    decreases |steps|
  {
    if |steps| == 0 then regs
    else
      var k := |steps| - 1;
      NextRegisters(Run(s, steps[..k]), steps[k], RunRegisters(s, steps[..k], regs))
  }

  /** After any run the processor holds exactly the running task's own registers, although one
      register file is shared by all. */
  lemma {:induction false} RegistersRun(s: State, steps: seq<Step>, regs: seq<Fpu>)
    requires Inv(s) && OwnRegisters(s.sched, regs)
    ensures OwnRegisters(Run(s, steps).sched, RunRegisters(s, steps, regs))
    decreases |steps|
  {
    if |steps| > 0 {
      var k := |steps| - 1;
      RegistersRun(s, steps[..k], regs);
      RunInv(s, steps[..k]);
      RegistersStep(Run(s, steps[..k]), steps[k], RunRegisters(s, steps[..k], regs));
    }
  }

  /** The state the kernel boots into satisfies everything above. */
  lemma InitialOk(s: State, regs: seq<Fpu>)
    requires Initial(s) && |regs| == PROCESS_LIMIT
    requires regs[0] == s.sched.cpu
    ensures Inv(s) && OwnRegisters(s.sched, regs)
    ensures forall c | 0 <= c < CHANNEL_LIMIT :: Outstanding(s.channels[c]) == []
  {
    assert Shape(s);
  }
}
