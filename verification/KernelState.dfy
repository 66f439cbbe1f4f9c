/** The state shared by the scheduler, the IPC channels and the input queue, and the
    result of every kernel entry point on it. The class in KernelCode.dfy updates the
    same state in place and is proved equal to these functions. */
module KernelState {
  import opened Options

  const PROCESS_LIMIT: nat := 8
  const CHANNEL_LIMIT: nat := 16
  const QUEUE_DEPTH: nat := 32
  const MESSAGE_MAX: nat := 64
  const INPUT_CAPACITY: nat := 128
  const QUANTUM_TICKS: nat := 4
  const U64: nat := 0x1_0000_0000_0000_0000
  const FAILURE: nat := U64 - 1
  const EVENT_BYTES: nat := 40

  /** An FXSAVE image; only copied, never inspected. */
  type Fpu = int

  datatype TaskState = Unused | Ready | Running | Blocked | Exited

  /** `result` and `detail` are the rax and rdx cells of the saved interrupt frame. */
  datatype Task = Task(state: TaskState, parent: nat, waitingFor: Option<nat>, timedWait: bool,
                       wakeTick: nat, timeoutResult: nat, exitCode: nat, slice: nat,
                       result: nat, detail: nat)

  /** What the source leaves in a slot it clears: `waiting_for` becomes 0, not the sentinel. */
  const CLEARED := Task(Unused, 0, Some(0), false, 0, 0, 0, 0, 0, 0)

  datatype Message = Message(sender: nat, data: seq<bv8>)
  datatype Waiter = Waiter(active: bool, pid: nat, capacity: nat, multiplex: bool)
  datatype ParkedSender = ParkedSender(active: bool, pid: nat, data: seq<bv8>)
  function BlankRing(): seq<Message> { seq(QUEUE_DEPTH, _ => Message(0, [])) }
  const NO_WAITER := Waiter(false, 0, 0, false)
  const NO_SENDER := ParkedSender(false, 0, [])

  datatype Channel = Channel(active: bool, owner: nat, name: seq<char>, messages: seq<Message>,
                             read: nat, write: nat, count: nat, waiter: Waiter, sender: ParkedSender)

  datatype Event = Event(kind: nat, payload: int)
  const MOUSE_MOVE: nat := 3

  datatype Input = Input(queue: seq<Event>, read: nat, write: nat, waiter: Option<nat>)

  datatype Sched = Sched(tasks: seq<Task>, current: nat, usersRunning: bool, ticks: nat,
                         dispatches: nat, fpu: seq<Fpu>, cpu: Fpu, template: Fpu)

  datatype State = State(sched: Sched, channels: seq<Channel>, input: Input)

  ghost predicate Shape(s: State) {
    && |s.sched.tasks| == PROCESS_LIMIT && |s.sched.fpu| == PROCESS_LIMIT
    && s.sched.current < PROCESS_LIMIT
    && |s.channels| == CHANNEL_LIMIT
    && (forall c | 0 <= c < CHANNEL_LIMIT :: RingOk(s.channels[c]))
    && InputOk(s.input)
  }

  ghost predicate SchedShape(s: Sched) {
    |s.tasks| == PROCESS_LIMIT && |s.fpu| == PROCESS_LIMIT && s.current < PROCESS_LIMIT
  }

  ghost predicate RingOk(c: Channel) {
    && |c.messages| == QUEUE_DEPTH && c.read < QUEUE_DEPTH && c.write < QUEUE_DEPTH
    && c.count <= QUEUE_DEPTH
    && (c.active ==> c.write == (c.read + c.count) % QUEUE_DEPTH)
    && (!c.active ==> !c.waiter.active && !c.sender.active)
  }

  ghost predicate InputOk(i: Input) {
    |i.queue| == INPUT_CAPACITY && i.read < INPUT_CAPACITY && i.write < INPUT_CAPACITY
  }

  /** The queued messages, oldest first. */
  ghost function Ring(c: Channel): seq<Message>
    requires RingOk(c)
  {
    seq(c.count, i requires 0 <= i < c.count => c.messages[(c.read + i) % QUEUE_DEPTH])
  }

  /** Everything accepted and not yet handed over. */
  ghost function Outstanding(c: Channel): seq<Message>
    requires RingOk(c)
  {
    Ring(c) + if c.sender.active then [Message(c.sender.pid, c.sender.data)] else []
  }

  // ----- src/scheduler.c -----

  /** The n-th slot that next_ready probes. */
  function Candidate(after: nat, n: nat): nat
    requires n >= 1
  {
    1 + (after + n - 1) % (PROCESS_LIMIT - 1)
  }

  /** How many probes next_ready makes before reaching `pid`. */
  function Distance(after: nat, pid: nat): (n: nat)
    requires after < PROCESS_LIMIT && 1 <= pid < PROCESS_LIMIT
    ensures 1 <= n < PROCESS_LIMIT && Candidate(after, n) == pid
  {
    if pid > after then pid - after else pid + (PROCESS_LIMIT - 1) - after
  }

  function NextReadyFrom(tasks: seq<Task>, after: nat, n: nat): nat
    requires |tasks| == PROCESS_LIMIT && 1 <= n <= PROCESS_LIMIT
    decreases PROCESS_LIMIT - n
  {
    if n == PROCESS_LIMIT then 0
    else if tasks[Candidate(after, n)].state == Ready then Candidate(after, n)
    else NextReadyFrom(tasks, after, n + 1)
  }

  function NextReady(tasks: seq<Task>, after: nat): nat
    requires |tasks| == PROCESS_LIMIT
  {
    NextReadyFrom(tasks, after, 1)
  }

  function SwitchFpu(s: Sched, to: nat): (r: Sched)
    requires SchedShape(s) && to < PROCESS_LIMIT
    ensures SchedShape(r)
  {
    if s.current == to then s else s.(fpu := s.fpu[s.current := s.cpu], cpu := s.fpu[to])
  }

  function Dispatch(s: Sched, pid: nat): (r: Sched)
    requires SchedShape(s) && pid < PROCESS_LIMIT
    ensures SchedShape(r)
  {
    SwitchFpu(s, pid).(current := pid,
                       tasks := s.tasks[pid := s.tasks[pid].(state := Running, slice := 0)],
                       dispatches := s.dispatches + 1)
  }

  function ReturnIdle(s: Sched): (r: Sched)
    requires SchedShape(s)
    ensures SchedShape(r)
  {
    SwitchFpu(s, 0).(usersRunning := false, current := 0,
                     tasks := s.tasks[0 := s.tasks[0].(state := Running)],
                     dispatches := s.dispatches + 1)
  }

  function SetTask(s: Sched, pid: nat, t: Task): Sched
    requires pid < |s.tasks|
  {
    s.(tasks := s.tasks[pid := t])
  }

  function Reschedule(s: Sched): (r: Sched)
    requires SchedShape(s)
    ensures SchedShape(r)
  {
    var t := s.tasks[s.current];
    var s1 := if t.state == Running then SetTask(s, s.current, t.(state := Ready)) else s;
    var next := NextReady(s1.tasks, s1.current);
    if next != 0 then Dispatch(s1, next)
    else if s1.tasks[s1.current].state == Ready
    then SetTask(s1, s1.current, s1.tasks[s1.current].(state := Running))
    else ReturnIdle(s1)
  }

  predicate CanWake(s: Sched, pid: nat)
    requires SchedShape(s)
  {
    0 < pid < PROCESS_LIMIT && s.tasks[pid].state == Blocked
  }

  function Woken(t: Task, result: nat, detail: nat): Task {
    t.(state := Ready, waitingFor := None, timedWait := false, result := result, detail := detail)
  }

  function Wake(s: Sched, pid: nat, result: nat, detail: nat): (r: Sched)
    requires SchedShape(s)
    ensures SchedShape(r)
  {
    if CanWake(s, pid) then SetTask(s, pid, Woken(s.tasks[pid], result, detail)) else s
  }

  function BlockCurrent(s: Sched): (r: Sched)
    requires SchedShape(s)
    ensures SchedShape(r)
  {
    if !s.usersRunning || s.current == 0 then s
    else Reschedule(SetTask(s, s.current, s.tasks[s.current].(state := Blocked, waitingFor := None)))
  }

  function TimedSleep(t: Task, now: nat, delay: nat, result: nat): Task {
    t.(state := Blocked, waitingFor := None, timedWait := true,
       wakeTick := (now + delay) % U64, timeoutResult := result)
  }

  function BlockCurrentTimeout(s: Sched, delay: nat, result: nat): (r: Sched)
    requires SchedShape(s)
    ensures SchedShape(r)
  {
    if !s.usersRunning || s.current == 0 || delay == 0 then BlockCurrent(s)
    else Reschedule(SetTask(s, s.current, TimedSleep(s.tasks[s.current], s.ticks, delay, result)))
  }

  function FirstUnused(tasks: seq<Task>, pid: nat): nat
    requires |tasks| == PROCESS_LIMIT && 1 <= pid <= PROCESS_LIMIT
    decreases PROCESS_LIMIT - pid
  {
    if pid == PROCESS_LIMIT then 0
    else if tasks[pid].state == Unused then pid else FirstUnused(tasks, pid + 1)
  }

  function NewTask(parent: nat, pid: nat): Task { Task(Ready, parent, None, false, 0, 0, 0, 0, 0, 0) }

  function CreateUser(s: Sched, parent: nat): (r: Sched)
    requires SchedShape(s)
    ensures SchedShape(r)
  {
    var pid := FirstUnused(s.tasks, 1);
    if parent >= PROCESS_LIMIT || pid == 0 then s
    else SetTask(s, pid, NewTask(parent, pid)).(fpu := s.fpu[pid := s.template])
  }

  function StartUsers(s: Sched): (r: Sched)
    requires SchedShape(s)
    ensures SchedShape(r)
  {
    var first := NextReady(s.tasks, 0);
    if s.usersRunning || first == 0 then s
    else Dispatch(SetTask(s, 0, s.tasks[0].(state := Ready)).(usersRunning := true), first)
  }

  // ----- src/ipc.c and src/input.c -----

  function Muted(c: Channel, pid: nat): Channel {
    if c.active && c.waiter.active && c.waiter.pid == pid then c.(waiter := c.waiter.(active := false)) else c
  }

  function CancelChannelWait(cs: seq<Channel>, pid: nat): (r: seq<Channel>) {
    seq(|cs|, i requires 0 <= i < |cs| => Muted(cs[i], pid))
  }

  function CancelInputWait(i: Input, pid: nat): Input {
    if i.waiter == Some(pid) then i.(waiter := None) else i
  }

  function Enqueue(c: Channel, m: Message): Channel
    requires RingOk(c)
  {
    c.(messages := c.messages[c.write := m], write := (c.write + 1) % QUEUE_DEPTH, count := c.count + 1)
  }

  lemma EnqueueOk(c: Channel, m: Message)
    requires RingOk(c) && c.active && c.count < QUEUE_DEPTH
    ensures RingOk(Enqueue(c, m))
  {
  }

  predicate Resolves(s: State, chan: Option<nat>)
    requires |s.channels| == CHANNEL_LIMIT
  {
    chan.Some? && chan.value < CHANNEL_LIMIT && s.channels[chan.value].active
  }

  /** 1 = delivered, 0 = refused, 2 = parked. `sentTo` tells whether it went straight to a waiter. */
  datatype SendResult = SendResult(code: nat, direct: bool, state: State)

  function SendImpl(s: State, pid: nat, chan: Option<nat>, data: seq<bv8>, block: bool): (r: SendResult)
    requires Shape(s)
    ensures Shape(r.state)
  {
    if !Resolves(s, chan) || |data| == 0 || |data| > MESSAGE_MAX then SendResult(0, false, s)
    else
      var id := chan.value;
      var c := s.channels[id];
      var w := c.waiter;
      if w.active then
        var input := if w.multiplex then CancelInputWait(s.input, w.pid) else s.input;
        var s1 := s.(channels := s.channels[id := c.(waiter := w.(active := false))], input := input);
        if |data| > w.capacity || !CanWake(s.sched, w.pid) then SendResult(0, false, s1)
        else SendResult(1, true, s1.(sched := Wake(s.sched, w.pid, if w.multiplex then 1 else |data|,
                                                   if w.multiplex then |data| else pid)))
      else if c.count == QUEUE_DEPTH then
        if !block || c.sender.active then SendResult(0, false, s)
        else SendResult(2, false, s.(channels := s.channels[id := c.(sender := ParkedSender(true, pid, data))]))
      else
        EnqueueOk(c, Message(pid, data));
        SendResult(1, false, s.(channels := s.channels[id := Enqueue(c, Message(pid, data))]))
  }

  datatype ReceiveResult = ReceiveResult(message: Option<Message>, state: State)

  predicate HeadFits(c: Channel, capacity: nat)
    requires RingOk(c)
  {
    c.count > 0 && |c.messages[c.read].data| <= capacity
  }

  /** Taking the head, and refilling from the parked sender, keep the ring well formed. */
  lemma PopOk(c: Channel)
    requires RingOk(c) && c.active && c.count > 0
    ensures var c1 := c.(read := (c.read + 1) % QUEUE_DEPTH, count := c.count - 1);
            RingOk(c1) && RingOk(Enqueue(c1.(sender := c.sender.(active := false)), Message(c.sender.pid, c.sender.data)))
  {
  }

  function Receive(s: State, chan: Option<nat>, capacity: nat): (r: ReceiveResult)
    requires Shape(s)
    ensures Shape(r.state)
  {
    if !Resolves(s, chan) || !HeadFits(s.channels[chan.value], capacity) then ReceiveResult(None, s)
    else
      var c := s.channels[chan.value];
      PopOk(c);
      var c1 := c.(read := (c.read + 1) % QUEUE_DEPTH, count := c.count - 1);
      var c2 := if !c.sender.active then c1
                else Enqueue(c1.(sender := c.sender.(active := false)), Message(c.sender.pid, c.sender.data));
      var sched := if c.sender.active then Wake(s.sched, c.sender.pid, |c.sender.data|, 0) else s.sched;
      ReceiveResult(Some(c.messages[c.read]), s.(channels := s.channels[chan.value := c2], sched := sched))
  }

  /** ipc_wait (multiplex false) and ipc_wait_select (multiplex true). */
  predicate CanWait(s: State, chan: Option<nat>, capacity: nat)
    requires Shape(s)
  {
    Resolves(s, chan) && !s.channels[chan.value].waiter.active && 0 < capacity <= MESSAGE_MAX
  }

  function Register(s: State, pid: nat, chan: nat, capacity: nat, multiplex: bool): (r: State)
    requires Shape(s) && chan < CHANNEL_LIMIT && s.channels[chan].active
    ensures Shape(r)
  {
    s.(channels := s.channels[chan := s.channels[chan].(waiter := Waiter(true, pid, capacity, multiplex))])
  }

  function Unparked(c: Channel, pid: nat): Channel {
    if c.active && c.sender.active && c.sender.pid == pid then c.(sender := c.sender.(active := false)) else c
  }

  /** The owner is gone: the task waiting on channel `i` is woken with failure. */
  function FailWaiter(s: State, i: nat): (r: State)
    requires Shape(s) && i < CHANNEL_LIMIT
    ensures Shape(r)
  {
    var w := s.channels[i].waiter;
    if !w.active then s
    else State(Wake(s.sched, w.pid, FAILURE, 0),
               s.channels[i := s.channels[i].(waiter := w.(active := false))],
               if w.multiplex then CancelInputWait(s.input, w.pid) else s.input)
  }

  /** ... and so is the task parked on it. */
  function FailSender(s: State, i: nat): (r: State)
    requires Shape(s) && i < CHANNEL_LIMIT
    ensures Shape(r)
  {
    var c := s.channels[i];
    if !c.sender.active then s
    else s.(sched := Wake(s.sched, c.sender.pid, FAILURE, 0),
            channels := s.channels[i := c.(sender := c.sender.(active := false))])
  }

  function Closed(c: Channel): Channel { c.(active := false, count := 0, waiter := c.waiter.(active := false)) }

  /** One round of the loop in ipc_process_cleanup. */
  function CleanChannel(s: State, pid: nat, i: nat): (r: State)
    requires Shape(s) && i < CHANNEL_LIMIT
    ensures Shape(r)
  {
    var s1 := s.(channels := s.channels[i := Unparked(Muted(s.channels[i], pid), pid)]);
    if !s.channels[i].active || s.channels[i].owner != pid then s1
    else
      var s2 := FailSender(FailWaiter(s1, i), i);
      s2.(channels := s2.channels[i := Closed(s2.channels[i])])
  }

  function CleanupTo(s: State, pid: nat, n: nat): (r: State)
    requires Shape(s) && n <= CHANNEL_LIMIT
    ensures Shape(r)
  {
    if n == 0 then s else CleanChannel(CleanupTo(s, pid, n - 1), pid, n - 1)
  }

  function Cleanup(s: State, pid: nat): (r: State)
    requires Shape(s)
    ensures Shape(r)
  {
    CleanupTo(s.(input := CancelInputWait(s.input, pid)), pid, CHANNEL_LIMIT)
  }

  predicate NameTaken(cs: seq<Channel>, name: seq<char>) {
    exists i | 0 <= i < |cs| :: cs[i].active && cs[i].name == name
  }

  function FirstFree(cs: seq<Channel>, i: nat): nat
    requires i <= |cs|
    decreases |cs| - i
  {
    if i == |cs| || !cs[i].active then i else FirstFree(cs, i + 1)
  }

  const NAME_MAX: nat := 24

  /** `granted` says whether the capability table had room for the owner's handle. */
  function CreateChannel(s: State, owner: nat, name: seq<char>, granted: bool): (r: State)
    requires Shape(s)
    ensures Shape(r)
  {
    var i := FirstFree(s.channels, 0);
    if owner == 0 || |name| == 0 || |name| >= NAME_MAX || NameTaken(s.channels, name) || i >= CHANNEL_LIMIT then s
    else
      s.(channels := s.channels[i := Channel(granted, owner, name, BlankRing(), 0, 0, 0, NO_WAITER, NO_SENDER)])
  }

  /** A mouse move that replaces the mouse move at the end needs no cell. */
  predicate RoomFor(i: Input, e: Event)
    requires InputOk(i)
  {
    || (e.kind == MOUSE_MOVE && i.read != i.write && i.queue[(i.write + INPUT_CAPACITY - 1) % INPUT_CAPACITY].kind == MOUSE_MOVE)
    || (i.write + 1) % INPUT_CAPACITY != i.read
  }

  function PushEvent(i: Input, e: Event): Input
    requires InputOk(i)
  {
    var last := (i.write + INPUT_CAPACITY - 1) % INPUT_CAPACITY;
    if e.kind == MOUSE_MOVE && i.read != i.write && i.queue[last].kind == MOUSE_MOVE
    then i.(queue := i.queue[last := e])
    else
      var next := (i.write + 1) % INPUT_CAPACITY;
      if next == i.read then i else i.(queue := i.queue[i.write := e], write := next)
  }

  function Publish(s: State, e: Event): (r: State)
    requires Shape(s)
    ensures Shape(r)
  {
    if e.kind < 1 || e.kind > 6 then s
    else if s.input.waiter.Some? then
      var pid := s.input.waiter.value;
      var s1 := s.(input := s.input.(waiter := None), channels := CancelChannelWait(s.channels, pid));
      if CanWake(s.sched, pid) then s1.(sched := Wake(s.sched, pid, 2, EVENT_BYTES))
      else s1.(input := PushEvent(s1.input, e))
    else s.(input := PushEvent(s.input, e))
  }

  /** One round of the timeout loop of scheduler_on_timer_tick. */
  function TimeoutOne(s: State, pid: nat): (r: State)
    requires Shape(s) && pid < PROCESS_LIMIT
    ensures Shape(r)
  {
    var t := s.sched.tasks[pid];
    if t.state != Blocked || !t.timedWait || s.sched.ticks < t.wakeTick then s
    else State(SetTask(s.sched, pid, Woken(t, t.timeoutResult, 0)),
               CancelChannelWait(s.channels, pid), CancelInputWait(s.input, pid))
  }

  function TimeoutsTo(s: State, n: nat): (r: State)
    requires Shape(s) && 1 <= n <= PROCESS_LIMIT
    ensures Shape(r)
  {
    if n == 1 then s else TimeoutOne(TimeoutsTo(s, n - 1), n - 1)
  }

  function ChargeTick(s: Sched): (r: Sched)
    requires SchedShape(s)
    ensures SchedShape(r)
  {
    if !s.usersRunning || s.current == 0 then s
    else
      var t := s.tasks[s.current];
      var s1 := SetTask(s, s.current, t.(slice := t.slice + 1));
      if t.slice + 1 < QUANTUM_TICKS then s1 else Reschedule(s1)
  }

  function OnTick(s: State): (r: State)
    requires Shape(s)
    ensures Shape(r)
  {
    var s1 := TimeoutsTo(s.(sched := s.sched.(ticks := (s.sched.ticks + 1) % U64)), PROCESS_LIMIT);
    s1.(sched := ChargeTick(s1.sched))
  }

  function OnYield(s: State): (r: State)
    requires Shape(s)
    ensures Shape(r)
  {
    if !s.sched.usersRunning || s.sched.current == 0 then s else s.(sched := Reschedule(s.sched))
  }

  predicate ParentWaits(s: Sched, child: nat)
    requires SchedShape(s) && child < PROCESS_LIMIT
  {
    var p := s.tasks[child].parent;
    0 < p < PROCESS_LIMIT && s.tasks[p].state == Blocked && s.tasks[p].waitingFor.Some?
    && (s.tasks[p].waitingFor == Some(0) || s.tasks[p].waitingFor == Some(child))
  }

  /** Frees the slot: channels and waits are cleaned first, then the task is cleared. */
  function ReleaseSlot(s: State, child: nat): (r: State)
    requires Shape(s) && 0 < child < PROCESS_LIMIT
    ensures Shape(r)
  {
    var s1 := Cleanup(s, child);
    s1.(sched := SetTask(s1.sched, child, CLEARED))
  }

  function WakeParent(s: State, child: nat): (r: State)
    requires Shape(s) && 0 < child < PROCESS_LIMIT
    ensures Shape(r)
  {
    if !ParentWaits(s.sched, child) then s
    else
      var p := s.sched.tasks[child].parent;
      var t := s.sched.tasks[p].(result := child, detail := s.sched.tasks[child].exitCode,
                                 waitingFor := None, state := Ready);
      ReleaseSlot(s.(sched := SetTask(s.sched, p, t)), child)
  }

  /** The task slot of a task that has just died. */
  function Died(s: Sched, pid: nat, code: nat): (r: Sched)
    requires SchedShape(s) && pid < PROCESS_LIMIT
    ensures SchedShape(r)
  {
    SetTask(s, pid, s.tasks[pid].(exitCode := code, state := Exited))
  }

  function OnExit(s: State, code: nat): (r: State)
    requires Shape(s)
    ensures Shape(r)
  {
    if !s.sched.usersRunning || s.sched.current == 0 then s
    else
      var pid := s.sched.current;
      var s1 := WakeParent(s.(sched := Died(s.sched, pid, code)), pid);
      var next := NextReady(s1.sched.tasks, s1.sched.current);
      s1.(sched := if next != 0 then Dispatch(s1.sched, next) else ReturnIdle(s1.sched))
  }

  predicate CanReap(s: Sched, parent: nat, child: nat)
    requires SchedShape(s)
  {
    0 < child < PROCESS_LIMIT && s.tasks[child].parent == parent && s.tasks[child].state == Exited
  }

  function Reap(s: State, parent: nat, child: nat): (r: State)
    requires Shape(s)
    ensures Shape(r)
  {
    if CanReap(s.sched, parent, child) then ReleaseSlot(s, child) else s
  }

  function OnWait(s: State, child: nat): (r: State)
    requires Shape(s)
    ensures Shape(r)
  {
    var pid := s.sched.current;
    if CanReap(s.sched, pid, child) then Reap(s, pid, child)
    else if child >= PROCESS_LIMIT || s.sched.tasks[child].parent != pid || s.sched.tasks[child].state == Unused then s
    else s.(sched := Reschedule(SetTask(s.sched, pid, s.sched.tasks[pid].(state := Blocked, waitingFor := Some(child)))))
  }

  predicate CanTerminate(s: Sched, pid: nat)
    requires SchedShape(s)
  {
    0 < pid < PROCESS_LIMIT && pid != s.current && s.tasks[pid].state != Unused && s.tasks[pid].state != Exited
  }

  function Terminate(s: State, pid: nat, code: nat): (r: State)
    requires Shape(s)
    ensures Shape(r)
  {
    if !CanTerminate(s.sched, pid) then s
    else WakeParent(s.(sched := Died(s.sched, pid, code)), pid)
  }

  // ----- the system calls that combine them (src/arch/x86_64/userspace.c) -----

  /** What one kernel entry accepted into a channel and what it handed to a receiver. */
  datatype Outcome = Outcome(state: State, accepted: Option<(nat, Message)>, delivered: Option<(nat, Message)>)

  function Quiet(s: State): Outcome { Outcome(s, None, None) }

  function SysSend(s: State, chan: Option<nat>, data: seq<bv8>): (r: Outcome)
    requires Shape(s)
    ensures Shape(r.state)
  {
    var pid := s.sched.current;
    var r := SendImpl(s, pid, chan, data, true);
    if r.code == 0 then Quiet(r.state)
    else
      var m := (chan.value, Message(pid, data));
      Outcome(if r.code == 2 then r.state.(sched := BlockCurrent(r.state.sched)) else r.state,
              Some(m), if r.direct then Some(m) else None)
  }

  function SysReceive(s: State, chan: Option<nat>, capacity: nat, poll: bool): (r: Outcome)
    requires Shape(s)
    ensures Shape(r.state)
  {
    if capacity == 0 || capacity > MESSAGE_MAX then Quiet(s)
    else
      var r := Receive(s, chan, capacity);
      if r.message.Some? then Outcome(r.state, None, Some((chan.value, r.message.value)))
      else if poll || !CanWait(s, chan, capacity) then Quiet(s)
      else
        var s1 := Register(s, s.sched.current, chan.value, capacity, false);
        Quiet(s1.(sched := BlockCurrent(s1.sched)))
  }

  function SysSelect(s: State, chan: Option<nat>, delay: nat): (r: Outcome)
    requires Shape(s)
    ensures Shape(r.state)
  {
    var pid := s.sched.current;
    var r := Receive(s, chan, MESSAGE_MAX);
    if r.message.Some? then Outcome(r.state, None, Some((chan.value, r.message.value)))
    else if s.input.read != s.input.write
    then Quiet(s.(input := s.input.(read := (s.input.read + 1) % INPUT_CAPACITY)))
    else if !CanWait(s, chan, MESSAGE_MAX) then Quiet(s.(channels := CancelChannelWait(s.channels, pid)))
    else
      var s1 := Register(s, pid, chan.value, MESSAGE_MAX, true);
      if pid == 0 || s.input.waiter.Some? then Quiet(s1.(channels := CancelChannelWait(s1.channels, pid)))
      else
        var s2 := s1.(input := s.input.(waiter := Some(pid)));
        Quiet(s2.(sched := if delay != 0 then BlockCurrentTimeout(s2.sched, delay, 3) else BlockCurrent(s2.sched)))
  }

  function SysExit(s: State, code: nat): (r: State)
    requires Shape(s)
    ensures Shape(r)
  {
    OnExit(Cleanup(s, s.sched.current), code)
  }

  function SysTerminate(s: State, target: nat, code: nat): (r: State)
    requires Shape(s)
    ensures Shape(r)
  {
    Terminate(Cleanup(s, target), target, code)
  }

  /** Every way into the kernel. The first group are system calls of the running user task;
      `chan` is the channel its handle resolves to with the needed right, None if it does not. */
  datatype Step =
    | Send(chan: Option<nat>, data: seq<bv8>)
    | Recv(chan: Option<nat>, capacity: nat, poll: bool)
    | Select(chan: Option<nat>, delay: nat)
    | Yield
    | Exit(code: nat)
    | TerminateCall(target: nat, code: nat)
    | Wait(child: nat)
    | OpenChannel(name: seq<char>, granted: bool)
    | Tick
    | Event(event: Event)
    | Kill(target: nat, code: nat)
    | Create(parent: nat)
    | Start
    | ReapStep(parent: nat, child: nat)
    | Compute(fpu: Fpu)

  predicate UserCall(step: Step) {
    step.Send? || step.Recv? || step.Select? || step.Yield? || step.Exit? || step.TerminateCall?
    || step.Wait? || step.OpenChannel?
  }

  function Next(s: State, step: Step): (r: Outcome)
    requires Shape(s)
    ensures Shape(r.state)
  {
    if UserCall(step) && s.sched.current == 0 then Quiet(s)
    else match step
      case Send(chan, data) => SysSend(s, chan, data)
      case Recv(chan, capacity, poll) => SysReceive(s, chan, capacity, poll)
      case Select(chan, delay) => SysSelect(s, chan, delay)
      case Yield => Quiet(OnYield(s))
      case Exit(code) => Quiet(SysExit(s, code))
      case TerminateCall(target, code) => Quiet(SysTerminate(s, target, code))
      case Wait(child) => Quiet(OnWait(s, child))
      case OpenChannel(name, granted) => Quiet(CreateChannel(s, s.sched.current, name, granted))
      case Tick => Quiet(OnTick(s))
      case Event(e) => Quiet(Publish(s, e))
      case Kill(target, code) => Quiet(Terminate(s, target, code))
      case Create(parent) => Quiet(s.(sched := CreateUser(s.sched, parent)))
      case Start => Quiet(s.(sched := StartUsers(s.sched)))
      case ReapStep(parent, child) => Quiet(Reap(s, parent, child))
      case Compute(fpu) => Quiet(s.(sched := s.sched.(cpu := fpu)))
  }

  /** The machine after ipc_init, input_init and scheduler_init. */
  ghost predicate Initial(s: State) {
    && Shape(s)
    && s.sched.current == 0 && !s.sched.usersRunning && s.sched.ticks == 0 && s.sched.dispatches == 1
    && s.sched.tasks[0].state == Running && s.sched.tasks[0].waitingFor == None && !s.sched.tasks[0].timedWait
    && s.sched.tasks[0].parent == 0
    && (forall p | 0 < p < PROCESS_LIMIT :: s.sched.tasks[p].state == Unused && !s.sched.tasks[p].timedWait)
    && (forall p | 0 <= p < PROCESS_LIMIT :: s.sched.fpu[p] == s.sched.template)
    && (forall c | 0 <= c < CHANNEL_LIMIT :: !s.channels[c].active && s.channels[c].count == 0)
    && (forall c | 0 <= c < CHANNEL_LIMIT :: s.channels[c].messages == BlankRing())
    && s.input.waiter == None && s.input.read == 0 && s.input.write == 0
  }
}
