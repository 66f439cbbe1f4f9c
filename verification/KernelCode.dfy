/** The scheduler, IPC and input code itself, updating its tables in place. Every method is
    proved equal to the corresponding function of KernelState, about which KernelSteps,
    KernelPipes, KernelWakes and KernelFairness prove what the kernel promises. */
module KernelCode {
  import opened KernelState
  import opened KernelInvariants
  import opened KernelSteps
  import opened Options

  ghost predicate UniqueWaiters(cs: seq<Channel>) {
    forall c, d | 0 <= c < d < |cs| :: cs[c].waiter.active && cs[d].waiter.active ==> cs[c].waiter.pid != cs[d].waiter.pid
  }

  class Kernel {
    var tasks: seq<Task>
    var current: nat
    var usersRunning: bool
    var ticks: nat
    var dispatches: nat
    var fpu: seq<Fpu>
    var cpu: Fpu
    var template: Fpu
    var channels: seq<Channel>
    var queue: seq<Event>
    var readIndex: nat
    var writeIndex: nat
    var inputWaiter: Option<nat>

    ghost function SchedView(): Sched
      reads this
    {
      Sched(tasks, current, usersRunning, ticks, dispatches, fpu, cpu, template)
    }

    ghost function View(): State
      reads this
    {
      State(SchedView(), channels, Input(queue, readIndex, writeIndex, inputWaiter))
    }

    // ----- src/scheduler.c -----

    method SwitchFpuTo(to: nat)
      requires SchedShape(SchedView()) && to < PROCESS_LIMIT
      modifies this`fpu, this`cpu
      ensures SchedView() == SwitchFpu(old(SchedView()), to)
    {
      if current == to { return; }
      fpu := fpu[current := cpu];
      cpu := fpu[to];
    }

    method DispatchTask(pid: nat)
      requires SchedShape(SchedView()) && pid < PROCESS_LIMIT
      modifies this`fpu, this`cpu, this`current, this`tasks, this`dispatches
      ensures SchedView() == Dispatch(old(SchedView()), pid)
    {
      SwitchFpuTo(pid);
      current := pid;
      tasks := tasks[pid := tasks[pid].(state := Running)];
      tasks := tasks[pid := tasks[pid].(slice := 0)];
      dispatches := dispatches + 1;
    }

    method FindNextReady(after: nat) returns (pid: nat)
      requires SchedShape(SchedView())
      ensures pid == NextReady(tasks, after)
      ensures after < PROCESS_LIMIT ==> pid < PROCESS_LIMIT
    {
      hide NextReady, NextReadyFrom, Candidate, Distance;
      ScanBounds(tasks, after);
      for n := 1 to PROCESS_LIMIT
        invariant NextReady(tasks, after) == NextReadyFrom(tasks, after, n)
      {
        ScanStep(tasks, after, n);
        pid := 1 + (after + n - 1) % (PROCESS_LIMIT - 1);
        if tasks[pid].state == Ready { return; }
      }
      pid := 0;
    }

    method GoIdle()
      requires SchedShape(SchedView())
      modifies this`fpu, this`cpu, this`current, this`tasks, this`dispatches, this`usersRunning
      ensures SchedView() == ReturnIdle(old(SchedView()))
    {
      SwitchFpuTo(0);
      usersRunning := false;
      current := 0;
      tasks := tasks[0 := tasks[0].(state := Running)];
      dispatches := dispatches + 1;
    }

    method RescheduleNow()
      requires SchedShape(SchedView())
      modifies this`fpu, this`cpu, this`current, this`tasks, this`dispatches, this`usersRunning
      ensures SchedView() == Reschedule(old(SchedView()))
    {
      if tasks[current].state == Running { tasks := tasks[current := tasks[current].(state := Ready)]; }
      var next := FindNextReady(current);
      if next == 0 {
        if tasks[current].state == Ready {
          tasks := tasks[current := tasks[current].(state := Running)];
          return;
        }
        GoIdle();
        return;
      }
      DispatchTask(next);
    }

    method CreateUserTask(parent: nat) returns (pid: nat)
      requires SchedShape(SchedView())
      modifies this`tasks, this`fpu
      ensures SchedView() == CreateUser(old(SchedView()), parent)
      ensures pid == (if parent < PROCESS_LIMIT then FirstUnused(old(tasks), 1) else 0)
    {
      if parent >= PROCESS_LIMIT { return 0; }
      for n := 1 to PROCESS_LIMIT
        invariant FirstUnused(tasks, 1) == FirstUnused(tasks, n)
        invariant SchedView() == old(SchedView())
      {
        if tasks[n].state == Unused {
          tasks := tasks[n := NewTask(parent, n)];
          fpu := fpu[n := template];
          return n;
        }
      }
      return 0;
    }

    method StartUserTasks()
      requires SchedShape(SchedView())
      modifies this`fpu, this`cpu, this`current, this`tasks, this`dispatches, this`usersRunning
      ensures SchedView() == StartUsers(old(SchedView()))
    {
      if usersRunning { return; }
      var first := FindNextReady(0);
      if first == 0 { return; }
      tasks := tasks[0 := tasks[0].(state := Ready)];
      usersRunning := true;
      DispatchTask(first);
    }

    method WakeTask(pid: nat, result: nat, detail: nat) returns (woken: bool)
      requires SchedShape(SchedView())
      modifies this`tasks
      ensures SchedView() == Wake(old(SchedView()), pid, result, detail)
      ensures woken == CanWake(old(SchedView()), pid)
    {
      if pid == 0 || pid >= PROCESS_LIMIT || tasks[pid].state != Blocked { return false; }
      tasks := tasks[pid := tasks[pid].(result := result)];
      tasks := tasks[pid := tasks[pid].(detail := detail)];
      tasks := tasks[pid := tasks[pid].(timedWait := false)];
      tasks := tasks[pid := tasks[pid].(waitingFor := None)];
      tasks := tasks[pid := tasks[pid].(state := Ready)];
      return true;
    }

    method BlockCurrentTask()
      requires SchedShape(SchedView())
      modifies this`fpu, this`cpu, this`current, this`tasks, this`dispatches, this`usersRunning
      ensures SchedView() == BlockCurrent(old(SchedView()))
    {
      hide Reschedule;
      if !usersRunning || current == 0 { return; }
      ghost var s := SchedView();
      tasks := tasks[current := tasks[current].(state := Blocked)];
      tasks := tasks[current := tasks[current].(waitingFor := None)];
      assert SchedView() == SetTask(s, current, s.tasks[current].(state := Blocked, waitingFor := None));
      RescheduleNow();
    }

    method BlockCurrentTaskTimeout(delay: nat, result: nat)
      requires SchedShape(SchedView())
      modifies this`fpu, this`cpu, this`current, this`tasks, this`dispatches, this`usersRunning
      ensures SchedView() == BlockCurrentTimeout(old(SchedView()), delay, result)
    {
      hide Reschedule;
      if !usersRunning || current == 0 || delay == 0 {
        BlockCurrentTask();
        return;
      }
      ghost var s := SchedView();
      tasks := tasks[current := tasks[current].(state := Blocked)];
      tasks := tasks[current := tasks[current].(wakeTick := (ticks + delay) % U64, timeoutResult := result)];
      tasks := tasks[current := tasks[current].(timedWait := true)];
      tasks := tasks[current := tasks[current].(waitingFor := None)];
      assert SchedView() == SetTask(s, current, TimedSleep(s.tasks[current], ticks, delay, result));
      RescheduleNow();
    }

    /** One round of the timeout loop. */
    method ExpireWait(pid: nat)
      requires Inv(View()) && 0 < pid < PROCESS_LIMIT
      modifies this`tasks, this`channels, this`inputWaiter
      ensures View() == TimeoutOne(old(View()), pid)
    {
      var waiting := tasks[pid];
      if waiting.state != Blocked || !waiting.timedWait || ticks < waiting.wakeTick { return; }
      var _ := CancelChannelWaitOf(pid);
      var _ := CancelInputWaitOf(pid);
      hide RegistryX;
      tasks := tasks[pid := tasks[pid].(result := waiting.timeoutResult, detail := 0)];
      tasks := tasks[pid := tasks[pid].(timedWait := false)];
      tasks := tasks[pid := tasks[pid].(waitingFor := None)];
      tasks := tasks[pid := tasks[pid].(state := Ready)];
      assert tasks == old(tasks)[pid := Woken(waiting, waiting.timeoutResult, 0)];
    }

    method ChargeRunning()
      requires SchedShape(SchedView())
      modifies this`fpu, this`cpu, this`current, this`tasks, this`dispatches, this`usersRunning
      ensures SchedView() == ChargeTick(old(SchedView()))
    {
      hide Reschedule;
      if !usersRunning || current == 0 { return; }
      tasks := tasks[current := tasks[current].(slice := tasks[current].slice + 1)];
      if tasks[current].slice < QUANTUM_TICKS { return; }
      RescheduleNow();
    }

    method ExpireWaits()
      requires Inv(View())
      modifies this`tasks, this`channels, this`inputWaiter
      ensures View() == TimeoutsTo(old(View()), PROCESS_LIMIT)
    {
      ghost var s0 := View();
      assert Shape(s0);
      hide Inv, TimeoutOne;
      for pid := 1 to PROCESS_LIMIT
        invariant Shape(s0) && View() == TimeoutsTo(s0, pid)
      {
        TimeoutsInv(s0, pid);
        ExpireWait(pid);
      }
    }

    method TimerTick()
      requires Inv(View())
      modifies this
      ensures View() == OnTick(old(View())) && Inv(View())
    {
      hide Inv, TimeoutsTo, ChargeTick, OnTick, Shape, SchedShape;
      ghost var start := View();
      TickInv(start);
      TickStart(start);
      ticks := (ticks + 1) % U64;
      ExpireWaits();
      ChargeRunning();
    }

    method YieldTask()
      requires Inv(View())
      modifies this
      ensures View() == OnYield(old(View())) && Inv(View())
    {
      YieldInv(View());
      if !usersRunning || current == 0 { return; }
      RescheduleNow();
    }

    /** userspace_release_process and the clearing of the slot that follows it. */
    method ReleaseProcess(child: nat)
      requires RegistryInv(View()) && TasksOk(SchedView()) && 0 < child < PROCESS_LIMIT
      modifies this
      ensures View() == ReleaseSlot(old(View()), child)
    {
      ProcessCleanup(child);
      tasks := tasks[child := CLEARED];
    }

    method WakeWaitingParent(child: nat)
      requires RegistryInv(View()) && TasksOk(SchedView()) && 0 < child < PROCESS_LIMIT
      modifies this
      ensures View() == WakeParent(old(View()), child)
    {
      var parent := tasks[child].parent;
      if parent == 0 || parent >= PROCESS_LIMIT || tasks[parent].state != Blocked { return; }
      if tasks[parent].waitingFor == None { return; }
      if tasks[parent].waitingFor != Some(0) && tasks[parent].waitingFor != Some(child) { return; }
      ghost var s := View();
      AwakeUnregistered(s, parent);
      tasks := tasks[parent := tasks[parent].(result := child, detail := tasks[child].exitCode)];
      tasks := tasks[parent := tasks[parent].(waitingFor := None)];
      tasks := tasks[parent := tasks[parent].(state := Ready)];
      assert View() == s.(sched := SetTask(s.sched, parent, tasks[parent]));
      RegistryTask(s, parent, tasks[parent]);
      hide RegistryX, ReleaseSlot;
      ReleaseProcess(child);
    }

    method MarkDead(pid: nat, code: nat)
      requires SchedShape(SchedView()) && pid < PROCESS_LIMIT
      modifies this`tasks
      ensures SchedView() == Died(old(SchedView()), pid, code)
    {
      tasks := tasks[pid := tasks[pid].(exitCode := code)];
      tasks := tasks[pid := tasks[pid].(state := Exited)];
    }

    method ExitTask(code: nat)
      requires Inv(View())
      modifies this
      ensures View() == OnExit(old(View()), code) && Inv(View())
    {
      ExitInv(View(), code);
      if !usersRunning || current == 0 { return; }
      DieInv(View(), current, code);
      hide Inv, RegistryX, TasksOk, Died, WakeParent, Dispatch, ReturnIdle, NextReady;
      MarkDead(current, code);
      WakeWaitingParent(current);
      RunNext();
    }

    method RunNext()
      requires SchedShape(SchedView())
      modifies this`fpu, this`cpu, this`current, this`tasks, this`dispatches, this`usersRunning
      ensures var s := old(SchedView());
              var next := NextReady(s.tasks, s.current);
              next < PROCESS_LIMIT && SchedView() == if next != 0 then Dispatch(s, next) else ReturnIdle(s)
    {
      hide Dispatch, ReturnIdle;
      var next := FindNextReady(current);
      if next != 0 { DispatchTask(next); } else { GoIdle(); }
    }

    method ReapChild(parent: nat, child: nat) returns (reaped: bool, code: nat)
      requires Inv(View())
      modifies this
      ensures View() == Reap(old(View()), parent, child) && Inv(View())
      ensures reaped == CanReap(old(SchedView()), parent, child)
      ensures reaped ==> code == old(tasks)[child].exitCode
    {
      ReapInv(View(), parent, child);
      if child == 0 || child >= PROCESS_LIMIT || tasks[child].parent != parent || tasks[child].state != Exited {
        return false, 0;
      }
      code := tasks[child].exitCode;
      ReleaseProcess(child);
      return true, code;
    }

    /** `status` is the child's number and exit code when it was reaped at once. */
    method WaitForChild(child: nat) returns (status: Option<(nat, nat)>)
      requires Inv(View()) && current != 0
      modifies this
      ensures View() == OnWait(old(View()), child) && Inv(View())
      ensures status == if CanReap(old(SchedView()), old(current), child)
                        then Some((child, old(tasks)[child].exitCode)) else None
    {
      WaitInv(View(), child);
      ghost var s := View();
      var reaped, code := ReapChild(current, child);
      hide Inv, RegistryX, Reschedule, ReleaseSlot;
      if reaped { return Some((child, code)); }
      status := None;
      if child >= PROCESS_LIMIT || tasks[child].parent != current || tasks[child].state == Unused { return; }
      tasks := tasks[current := tasks[current].(state := Blocked)];
      tasks := tasks[current := tasks[current].(waitingFor := Some(child))];
      assert SchedView() == SetTask(s.sched, current, s.sched.tasks[current].(state := Blocked, waitingFor := Some(child)));
      RescheduleNow();
    }

    method TerminateTask(pid: nat, code: nat) returns (done: bool)
      requires Inv(View())
      modifies this
      ensures View() == Terminate(old(View()), pid, code) && Inv(View())
      ensures done == CanTerminate(old(SchedView()), pid)
    {
      TerminateInv(View(), pid, code);
      if pid == 0 || pid >= PROCESS_LIMIT || pid == current || tasks[pid].state == Unused || tasks[pid].state == Exited {
        return false;
      }
      DieInv(View(), pid, code);
      MarkDead(pid, code);
      hide Inv, RegistryX, WakeParent;
      WakeWaitingParent(pid);
      return true;
    }

    // ----- src/ipc.c -----

    method Post(id: nat, m: Message)
      requires id < |channels| && RingOk(channels[id])
      modifies this`channels
      ensures channels == old(channels)[id := Enqueue(old(channels)[id], m)]
    {
      var c := channels[id];
      channels := channels[id := channels[id].(messages := c.messages[c.write := m])];
      channels := channels[id := channels[id].(write := (c.write + 1) % QUEUE_DEPTH)];
      channels := channels[id := channels[id].(count := c.count + 1)];
    }

    /** Returns 1 when delivered or queued, 0 when refused, 2 when the message is parked. */
    method SendMessage(pid: nat, chan: Option<nat>, data: seq<bv8>, block: bool) returns (code: nat)
      requires Inv(View())
      modifies this`channels, this`tasks, this`inputWaiter
      ensures var r := SendImpl(old(View()), pid, chan, data, block); View() == r.state && code == r.code
    {
      if chan == None || chan.value >= CHANNEL_LIMIT || !channels[chan.value].active { return 0; }
      if |data| == 0 || |data| > MESSAGE_MAX { return 0; }
      var id := chan.value;
      if channels[id].waiter.active {
        var waiter := channels[id].waiter;
        channels := channels[id := channels[id].(waiter := waiter.(active := false))];
        if waiter.multiplex { var _ := CancelInputWaitOf(waiter.pid); }
        var result := if waiter.multiplex then 1 else |data|;
        var detail := if waiter.multiplex then |data| else pid;
        if |data| > waiter.capacity { return 0; }
        var woken := WakeTask(waiter.pid, result, detail);
        return if woken then 1 else 0;
      }
      if channels[id].count == QUEUE_DEPTH {
        if !block || channels[id].sender.active { return 0; }
        channels := channels[id := channels[id].(sender := ParkedSender(true, pid, data))];
        return 2;
      }
      Post(id, Message(pid, data));
      return 1;
    }

    method ReceiveMessage(chan: Option<nat>, capacity: nat) returns (message: Option<Message>)
      requires Inv(View())
      modifies this`channels, this`tasks
      ensures var r := Receive(old(View()), chan, capacity); View() == r.state && message == r.message
    {
      if chan == None || chan.value >= CHANNEL_LIMIT || !channels[chan.value].active { return None; }
      var id := chan.value;
      var c := channels[id];
      if c.count == 0 || |c.messages[c.read].data| > capacity { return None; }
      message := Some(c.messages[c.read]);
      channels := channels[id := c.(read := (c.read + 1) % QUEUE_DEPTH)];
      channels := channels[id := channels[id].(count := c.count - 1)];
      if channels[id].sender.active {
        var parked := channels[id].sender;
        channels := channels[id := channels[id].(sender := parked.(active := false))];
        Post(id, Message(parked.pid, parked.data));
        var _ := WakeTask(parked.pid, |parked.data|, 0);
      }
    }

    /** ipc_wait and ipc_wait_select; the caller blocks the task in the same kernel entry. */
    method RegisterWait(pid: nat, chan: Option<nat>, capacity: nat, multiplex: bool) returns (ok: bool)
      requires Shape(View())
      modifies this`channels
      ensures ok == CanWait(old(View()), chan, capacity)
      ensures View() == if ok then Register(old(View()), pid, chan.value, capacity, multiplex) else old(View())
    {
      if chan == None || chan.value >= CHANNEL_LIMIT || !channels[chan.value].active { return false; }
      if channels[chan.value].waiter.active || capacity == 0 || capacity > MESSAGE_MAX { return false; }
      channels := channels[chan.value := channels[chan.value].(waiter := Waiter(true, pid, capacity, multiplex))];
      return true;
    }

    method CancelChannelWaitOf(pid: nat) returns (found: bool)
      requires |channels| == CHANNEL_LIMIT && UniqueWaiters(channels)
      modifies this`channels
      ensures channels == CancelChannelWait(old(channels), pid) && (found <==> channels != old(channels))
    {
      for index := 0 to CHANNEL_LIMIT
        invariant channels == old(channels)
        invariant forall i | 0 <= i < index :: Muted(channels[i], pid) == channels[i]
      {
        if channels[index].active && channels[index].waiter.active && channels[index].waiter.pid == pid {
          channels := channels[index := channels[index].(waiter := channels[index].waiter.(active := false))];
          return true;
        }
      }
      return false;
    }

    method ProcessCleanup(pid: nat)
      requires RegistryInv(View()) && TasksOk(SchedView())
      modifies this`channels, this`tasks, this`inputWaiter
      ensures View() == Cleanup(old(View()), pid)
    {
      var _ := CancelInputWaitOf(pid);
      ghost var s0 := View();
      for i := 0 to CHANNEL_LIMIT
        invariant View() == CleanupTo(s0, pid, i)
      {
        CleanOne(pid, i);
      }
    }

    method CleanOne(pid: nat, i: nat)
      requires Shape(View()) && i < CHANNEL_LIMIT
      modifies this`channels, this`tasks, this`inputWaiter
      ensures View() == CleanChannel(old(View()), pid, i)
    {
      hide FailWaiter, FailSender;
      if !channels[i].active {
        assert channels[i := Unparked(Muted(channels[i], pid), pid)] == channels;
        return;
      }
      if channels[i].waiter.active && channels[i].waiter.pid == pid {
        channels := channels[i := channels[i].(waiter := channels[i].waiter.(active := false))];
      }
      if channels[i].sender.active && channels[i].sender.pid == pid {
        channels := channels[i := channels[i].(sender := channels[i].sender.(active := false))];
      }
      assert channels == old(channels)[i := Unparked(Muted(old(channels)[i], pid), pid)];
      if channels[i].owner == pid {
        FailChannel(i);
        ghost var s2 := View();
        channels := channels[i := channels[i].(active := false)];
        channels := channels[i := channels[i].(count := 0)];
        channels := channels[i := channels[i].(waiter := channels[i].waiter.(active := false))];
        assert channels == s2.channels[i := Closed(s2.channels[i])];
      }
    }

    /** Wakes whoever waits on or is parked on channel `i`, whose owner is going away. */
    method FailChannel(i: nat)
      requires Shape(View()) && i < CHANNEL_LIMIT
      modifies this`channels, this`tasks, this`inputWaiter
      ensures View() == FailSender(FailWaiter(old(View()), i), i)
    {
      if channels[i].waiter.active {
        if channels[i].waiter.multiplex { var _ := CancelInputWaitOf(channels[i].waiter.pid); }
        var _ := WakeTask(channels[i].waiter.pid, FAILURE, 0);
        channels := channels[i := channels[i].(waiter := channels[i].waiter.(active := false))];
      }
      assert View() == FailWaiter(old(View()), i);
      if channels[i].sender.active {
        var parked := channels[i].sender.pid;
        channels := channels[i := channels[i].(sender := channels[i].sender.(active := false))];
        var _ := WakeTask(parked, FAILURE, 0);
      }
    }

    method OpenNewChannel(owner: nat, name: seq<char>, granted: bool) returns (id: Option<nat>)
      requires Shape(View())
      modifies this`channels
      ensures View() == CreateChannel(old(View()), owner, name, granted)
      ensures id.Some? ==> id.value < CHANNEL_LIMIT && channels[id.value].active && channels[id.value].owner == owner
      ensures id.Some? <==> granted && channels != old(channels)
    {
      if owner == 0 || |name| == 0 || |name| >= NAME_MAX { return None; }
      for i := 0 to CHANNEL_LIMIT
        invariant forall j | 0 <= j < i :: !(channels[j].active && channels[j].name == name)
      {
        if channels[i].active && channels[i].name == name { return None; }
      }
      for i := 0 to CHANNEL_LIMIT
        invariant FirstFree(channels, 0) == FirstFree(channels, i)
        invariant View() == old(View())
      {
        if !channels[i].active {
          channels := channels[i := Channel(true, owner, name, BlankRing(), 0, 0, 0, NO_WAITER, NO_SENDER)];
          if !granted {
            channels := channels[i := channels[i].(active := false)];
            return None;
          }
          return Some(i);
        }
      }
      return None;
    }

    // ----- src/input.c -----

    method PublishEvent(e: Event) returns (ok: bool)
      requires Inv(View())
      modifies this`channels, this`tasks, this`queue, this`writeIndex, this`inputWaiter
      ensures View() == Publish(old(View()), e) && Inv(View())
      ensures ok <==> 1 <= e.kind <= 6
                      && ((old(inputWaiter).Some? && CanWake(old(SchedView()), old(inputWaiter).value))
                          || RoomFor(old(View()).input, e))
    {
      PublishInv(View(), e);
      PublishStart(View());
      RoomIgnoresWaiter(View().input, e);
      hide Inv, Wake, CancelChannelWait, PushEvent, RoomFor, UniqueWaiters, CanWake, InputOk, SchedShape;
      if e.kind < 1 || e.kind > 6 { return false; }
      if inputWaiter.Some? {
        var woken := WakeInputWaiter();
        if woken { return true; }
      }
      ok := QueueEvent(e);
    }

    /** The waiting task loses both halves of its wait before it is woken. */
    method WakeInputWaiter() returns (woken: bool)
      requires inputWaiter.Some? && |channels| == CHANNEL_LIMIT && UniqueWaiters(channels) && SchedShape(SchedView())
      modifies this`channels, this`tasks, this`inputWaiter
      ensures inputWaiter == None && channels == CancelChannelWait(old(channels), old(inputWaiter).value)
      ensures SchedView() == Wake(old(SchedView()), old(inputWaiter).value, 2, EVENT_BYTES)
      ensures woken == CanWake(old(SchedView()), old(inputWaiter).value)
    {
      hide Wake, CanWake, SchedShape, CancelChannelWait, UniqueWaiters;
      var pid := inputWaiter.value;
      inputWaiter := None;
      var _ := CancelChannelWaitOf(pid);
      woken := WakeTask(pid, 2, EVENT_BYTES);
    }

    /** The ring half of input_publish: a mouse move replaces a mouse move still at the end. */
    method QueueEvent(e: Event) returns (ok: bool)
      requires InputOk(View().input)
      modifies this`queue, this`writeIndex
      ensures View().input == PushEvent(old(View().input), e) && ok == RoomFor(old(View().input), e)
    {
      if e.kind == MOUSE_MOVE && readIndex != writeIndex {
        var previous := (writeIndex + INPUT_CAPACITY - 1) % INPUT_CAPACITY;
        if queue[previous].kind == MOUSE_MOVE {
          queue := queue[previous := e];
          return true;
        }
      }
      var next := (writeIndex + 1) % INPUT_CAPACITY;
      if next == readIndex { return false; }
      queue := queue[writeIndex := e];
      writeIndex := next;
      return true;
    }

    method PollEvent() returns (e: Option<Event>)
      requires InputOk(View().input)
      modifies this`readIndex
      ensures e == if old(readIndex) == writeIndex then None else Some(queue[old(readIndex)])
      ensures readIndex == if old(readIndex) == writeIndex then old(readIndex) else (old(readIndex) + 1) % INPUT_CAPACITY
    {
      if readIndex == writeIndex { return None; }
      e := Some(queue[readIndex]);
      readIndex := (readIndex + 1) % INPUT_CAPACITY;
    }

    method WaitForInput(pid: nat) returns (ok: bool)
      modifies this`inputWaiter
      ensures ok == (pid != 0 && old(inputWaiter) == None)
      ensures inputWaiter == if ok then Some(pid) else old(inputWaiter)
    {
      if pid == 0 || inputWaiter.Some? { return false; }
      inputWaiter := Some(pid);
      return true;
    }

    method CancelInputWaitOf(pid: nat) returns (found: bool)
      modifies this`inputWaiter
      ensures View().input == CancelInputWait(old(View().input), pid)
      ensures found == (old(inputWaiter) == Some(pid))
    {
      if inputWaiter != Some(pid) { return false; }
      inputWaiter := None;
      return true;
    }

    // ----- the system calls of src/arch/x86_64/userspace.c -----

    method CallSend(chan: Option<nat>, data: seq<bv8>) returns (code: nat)
      requires Inv(View()) && current != 0
      modifies this
      ensures View() == SysSend(old(View()), chan, data).state && Inv(View())
      ensures code != 0 <==> SysSend(old(View()), chan, data).accepted.Some?
    {
      SendInv(View(), chan, data);
      if |data| == 0 || |data| > MESSAGE_MAX { return 0; }
      code := SendMessage(current, chan, data, true);
      if code == 2 { BlockCurrentTask(); }
    }

    method CallReceive(chan: Option<nat>, capacity: nat, poll: bool) returns (message: Option<Message>)
      requires Inv(View()) && current != 0
      modifies this
      ensures var o := Next(old(View()), Recv(chan, capacity, poll));
              View() == o.state && (message.Some? <==> o.delivered.Some?)
              && (message.Some? ==> o.delivered == Some((chan.value, message.value)))
      ensures Inv(View())
    {
      NextInv(View(), Recv(chan, capacity, poll));
      if capacity == 0 || capacity > MESSAGE_MAX { return None; }
      message := ReceiveMessage(chan, capacity);
      if message.Some? || poll { return; }
      var ok := RegisterWait(current, chan, capacity, false);
      if ok { BlockCurrentTask(); }
    }

    method CallSelect(chan: Option<nat>, delay: nat) returns (message: Option<Message>, event: Option<Event>)
      requires Inv(View()) && current != 0
      modifies this
      ensures var o := Next(old(View()), Select(chan, delay));
              View() == o.state && (message.Some? <==> o.delivered.Some?)
              && (message.Some? ==> o.delivered == Some((chan.value, message.value)))
      ensures event == if message.Some? || old(readIndex) == old(writeIndex) then None
                       else Some(old(queue)[old(readIndex)])
      ensures Inv(View())
    {
      NextInv(View(), Select(chan, delay));
      message, event := None, None;
      message := ReceiveMessage(chan, MESSAGE_MAX);
      if message.Some? { return; }
      event := PollEvent();
      if event.Some? { return; }
      SelectWait(chan, delay);
    }

    /** Registers both halves and blocks; if either half is refused the other is taken back. */
    method SelectWait(chan: Option<nat>, delay: nat)
      requires Inv(View()) && current != 0 && readIndex == writeIndex
      requires Receive(View(), chan, MESSAGE_MAX).message == None
      modifies this
      ensures View() == SysSelect(old(View()), chan, delay).state
    {
      SelectStart(View());
      hide Inv, Receive, CanWait, CancelChannelWait, BlockCurrent, BlockCurrentTimeout;
      var channelHalf := RegisterWait(current, chan, MESSAGE_MAX, true);
      var inputHalf := false;
      if channelHalf { inputHalf := WaitForInput(current); }
      if !channelHalf || !inputHalf {
        var _ := CancelChannelWaitOf(current);
        return;
      }
      if delay != 0 { BlockCurrentTaskTimeout(delay, 3); } else { BlockCurrentTask(); }
    }

    method CallExit(code: nat)
      requires Inv(View()) && current != 0
      modifies this
      ensures View() == SysExit(old(View()), code) && Inv(View())
    {
      CleanupWhole(View(), current);
      ProcessCleanup(current);
      ExitTask(code);
    }

    method CallTerminate(target: nat, code: nat) returns (done: bool)
      requires Inv(View()) && current != 0
      modifies this
      ensures View() == SysTerminate(old(View()), target, code) && Inv(View())
      ensures done == CanTerminate(Cleanup(old(View()), target).sched, target)
    {
      CleanupWhole(View(), target);
      ProcessCleanup(target);
      done := TerminateTask(target, code);
    }
  }
}
